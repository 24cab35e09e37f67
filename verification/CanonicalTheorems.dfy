/** canonicalJSON prints two values alike exactly when they are equal up to key order. */
module CanonicalTheorems {
  import opened Prelude
  import opened Utf
  import opened Json
  import opened JsonTheorems
  import opened Canonical

  // -------- canonicalJSON is the compact print of the normal form --------

  /** q is the keyed text of the member p, wherever it is printed. */
  ghost predicate TextOf(p: (JsString, Value), q: (JsString, JsString)) {
    p.0 == q.0 && forall d: nat, rest: JsString :: PrintOnto(p.1, Compact, d, rest) == q.1 + rest
  }

  ghost predicate TextsOf(ps: seq<(JsString, Value)>, qs: seq<(JsString, JsString)>) {
    |ps| == |qs| && forall i :: 0 <= i < |ps| ==> TextOf(ps[i], qs[i])
  }

  lemma {:induction false} InsertTexts(p: (JsString, Value), q: (JsString, JsString),
                                       ps: seq<(JsString, Value)>, qs: seq<(JsString, JsString)>)
    requires TextOf(p, q) && TextsOf(ps, qs)
    ensures TextsOf(Insert(p, ps), Insert(q, qs))
    decreases |ps|
  {
    if ps != [] {
      assert TextOf(ps[0], qs[0]);
      if Less(ps[0].0, p.0) {
        InsertTexts(p, q, ps[1..], qs[1..]);
      }
    }
  }

  lemma {:induction false} SortTexts(ps: seq<(JsString, Value)>, qs: seq<(JsString, JsString)>)
    requires TextsOf(ps, qs)
    ensures TextsOf(SortByKey(ps), SortByKey(qs))
    decreases |ps|
  {
    if ps != [] {
      SortTexts(ps[1..], qs[1..]);
      InsertTexts(ps[0], qs[0], SortByKey(ps[1..]), SortByKey(qs[1..]));
    }
  }

  lemma KeyedMember(p: (JsString, Value), q: (JsString, JsString), d: nat, rest: JsString)
    requires TextOf(p, q)
    ensures MemberOnto(p, Compact, d, rest) == Keyed(q) + rest
  {
    var text := PrintOnto(p.1, Compact, d, rest);
    assert AfterColon(Compact) + text == text;
    QuoteRegroup(p.0, [COLON], text);
    Regroup(QuoteOnto(p.0, [COLON]), q.1, rest);
  }

  lemma QuoteRegroup(s: JsString, a: JsString, b: JsString)
    ensures QuoteOnto(s, a + b) == QuoteOnto(s, a) + b
  {
    assert [QUOTE] + (a + b) == ([QUOTE] + a) + b;
    Regroup(QuoteBody(s), [QUOTE] + a, b);
    Regroup([QUOTE], QuoteBody(s) + ([QUOTE] + a), b);
  }

  lemma {:induction false} MembersText(ps: seq<(JsString, Value)>, qs: seq<(JsString, JsString)>, d: nat, rest: JsString)
    requires ps != [] && TextsOf(ps, qs)
    ensures MembersOnto(ps, Compact, d, rest) == JoinComma(KeyedAll(qs)) + rest
    decreases |ps|
  {
    assert TextOf(ps[0], qs[0]);
    if |ps| == 1 {
      KeyedMember(ps[0], qs[0], d, rest);
      assert KeyedAll(qs) == [Keyed(qs[0])];
    } else {
      MembersText(ps[1..], qs[1..], d, rest);
      var others := JoinComma(KeyedAll(qs[1..]));
      KeyedMember(ps[0], qs[0], d, [COMMA] + (Break(Compact, d) + (others + rest)));
      assert KeyedAll(qs)[1..] == KeyedAll(qs[1..]);
      Separated(Keyed(qs[0]), others, d, rest);
    }
  }

  /** t is the text of v, wherever it is printed. */
  ghost predicate ItemText(v: Value, t: JsString) {
    forall d: nat, rest: JsString :: PrintOnto(v, Compact, d, rest) == t + rest
  }

  ghost predicate ItemTexts(vs: seq<Value>, ts: seq<JsString>) {
    |vs| == |ts| && forall i :: 0 <= i < |vs| ==> ItemText(vs[i], ts[i])
  }

  lemma Separated(first: JsString, others: JsString, d: nat, rest: JsString)
    ensures first + [COMMA] + others + rest == first + ([COMMA] + (Break(Compact, d) + (others + rest)))
  {
    assert Break(Compact, d) + (others + rest) == others + rest;
    Regroup(first, [COMMA], others);
    Regroup(first, [COMMA] + others, rest);
    Regroup([COMMA], others, rest);
  }

  lemma {:induction false} ItemsText(vs: seq<Value>, ts: seq<JsString>, d: nat, rest: JsString)
    requires vs != [] && ItemTexts(vs, ts)
    ensures ItemsOnto(vs, Compact, d, rest) == JoinComma(ts) + rest
    decreases |vs|
  {
    assert ItemText(vs[0], ts[0]);
    if |vs| > 1 {
      ItemsText(vs[1..], ts[1..], d, rest);
      Separated(ts[0], JoinComma(ts[1..]), d, rest);
    }
  }

  lemma {:induction false} CanonicalItemTexts(items: seq<Value>)
    requires forall i, e: nat, r: JsString :: 0 <= i < |items| ==>
      PrintOnto(Norm(items[i]), Compact, e, r) == CanonicalJSON(items[i]) + r
    ensures ItemTexts(NormItems(items), CanonicalItems(items))
    decreases |items|
  {
    if items != [] {
      forall i, e: nat, r: JsString | 0 <= i < |items[1..]|
        ensures PrintOnto(Norm(items[1..][i]), Compact, e, r) == CanonicalJSON(items[1..][i]) + r
      {
        assert items[1..][i] == items[i + 1];
      }
      CanonicalItemTexts(items[1..]);
      assert ItemText(Norm(items[0]), CanonicalJSON(items[0]));
    }
  }

  lemma LeafText(v: Value, d: nat, rest: JsString)
    requires !v.Arr? && !v.Obj?
    ensures PrintOnto(v, Compact, d, rest) == Print(v, Compact) + rest
  {
    assert rest == [] + rest;
    match v
    case Str(s) => QuoteRegroup(s, [], rest);
    case Num(n) => Regroup(PrintInt(n), [], rest);
    case Bool(b) => Regroup(if b then TRUE_WORD else FALSE_WORD, [], rest);
    case Null => Regroup(NULL_WORD, [], rest);
  }

  /** canonicalJSON, followed by any text, is the compact print of the normal form onto that text. */
  lemma {:induction false} CanonicalIsPrint(v: Value, d: nat, rest: JsString)
    ensures PrintOnto(Norm(v), Compact, d, rest) == CanonicalJSON(v) + rest
    decreases v
  {
    match v
    case Arr(items) =>
      forall i, e: nat, r: JsString | 0 <= i < |items|
        ensures PrintOnto(Norm(items[i]), Compact, e, r) == CanonicalJSON(items[i]) + r
      {
        CanonicalIsPrint(items[i], e, r);
      }
      var close := [RBRACKET] + rest;
      CanonicalItemTexts(items);
      if items != [] {
        ItemsText(NormItems(items), CanonicalItems(items), d + 1, close);
      }
      Wrapped([LBRACKET], JoinComma(CanonicalItems(items)), [RBRACKET], rest);
      assert Break(Compact, d) + close == close;
    case Obj(ms) =>
      forall i, e: nat, r: JsString | 0 <= i < |ms|
        ensures PrintOnto(Norm(ms[i].1), Compact, e, r) == CanonicalJSON(ms[i].1) + r
      {
        CanonicalIsPrint(ms[i].1, e, r);
      }
      var ps, qs := NormMembers(ms), CanonicalMembers(ms);
      MemberTexts(ms);
      SortTexts(ps, qs);
      SortElements(ps);
      var close := [RBRACE] + rest;
      if ms != [] {
        MembersText(SortByKey(ps), SortByKey(qs), d + 1, close);
      }
      Wrapped([LBRACE], JoinComma(KeyedAll(SortByKey(qs))), [RBRACE], rest);
      assert Break(Compact, d) + close == close;
    case _ => LeafText(v, d, rest);
  }

  lemma Wrapped(open: JsString, body: JsString, close: JsString, rest: JsString)
    ensures open + body + close + rest == open + (Break(Compact, 0) + (body + (close + rest)))
    ensures body == [] ==> open + body + close + rest == open + (close + rest)
  {
  }

  lemma {:induction false} MemberTexts(ms: seq<(JsString, Value)>)
    requires forall i, e: nat, r: JsString :: 0 <= i < |ms| ==>
      PrintOnto(Norm(ms[i].1), Compact, e, r) == CanonicalJSON(ms[i].1) + r
    ensures TextsOf(NormMembers(ms), CanonicalMembers(ms))
    decreases |ms|
  {
    if ms != [] {
      forall i, e: nat, r: JsString | 0 <= i < |ms[1..]|
        ensures PrintOnto(Norm(ms[1..][i].1), Compact, e, r) == CanonicalJSON(ms[1..][i].1) + r
      {
        assert ms[1..][i] == ms[i + 1];
      }
      MemberTexts(ms[1..]);
      assert TextOf(NormMember(ms[0]), CanonicalMember(ms[0]));
    }
  }

  // -------- Equal normal forms are equality up to key order --------

  lemma {:induction false} NormProper(v: Value)
    requires Proper(v)
    ensures Proper(Norm(v))
    decreases v
  {
    match v
    case Arr(items) =>
      forall i | 0 <= i < |items| ensures Proper(Norm(items[i])) {
        NormProper(items[i]);
      }
    case Obj(ms) =>
      var ps := NormMembers(ms);
      forall i | 0 <= i < |ms| ensures Proper(ps[i].1) {
        NormProper(ms[i].1);
      }
      SortAscends(ps);
      SortElements(ps);
      var sorted := SortByKey(ps);
      AscendingIsDistinct(sorted);
      forall i | 0 <= i < |sorted| ensures Proper(sorted[i].1) {
        InMultiset(sorted[i], sorted);
        InMultiset(sorted[i], ps);
      }
    case _ =>
  }

  /** Members that correspond, key by key, sort to the same list. */
  lemma SortOfSame(ps: seq<(JsString, Value)>, qs: seq<(JsString, Value)>)
    requires DistinctKeys(ps) && DistinctKeys(qs)
    requires (forall i :: 0 <= i < |ps| ==> ps[i] in qs) && (forall j :: 0 <= j < |qs| ==> qs[j] in ps)
    ensures SortByKey(ps) == SortByKey(qs)
  {
    forall p ensures multiset(ps)[p] == multiset(qs)[p] {
      CountDistinct(ps, p);
      CountDistinct(qs, p);
      InMultiset(p, ps);
      InMultiset(p, qs);
    }
    assert multiset(ps) == multiset(qs);
    SortElements(ps);
    SortElements(qs);
    SortAscends(ps);
    SortAscends(qs);
    AscendingUnique(SortByKey(ps), SortByKey(qs));
  }

  lemma {:induction false} CountDistinct(ps: seq<(JsString, Value)>, p: (JsString, Value))
    requires DistinctKeys(ps)
    ensures multiset(ps)[p] <= 1
  {
    if ps != [] {
      CountDistinct(ps[1..], p);
      assert ps == [ps[0]] + ps[1..];
      if ps[0] == p {
        assert p !in ps[1..];
        InMultiset(p, ps[1..]);
      }
    }
  }

  /** The normal values of the members of a and b are equal exactly where the values are. */
  ghost predicate Agree(a: seq<(JsString, Value)>, b: seq<(JsString, Value)>) {
    forall i, j :: 0 <= i < |a| && 0 <= j < |b| ==> (Same(a[i].1, b[j].1) <==> Norm(a[i].1) == Norm(b[j].1))
  }

  ghost predicate Within(ps: seq<(JsString, Value)>, qs: seq<(JsString, Value)>) {
    forall i :: 0 <= i < |ps| ==> ps[i] in qs
  }

  lemma CoveredIff(a: seq<(JsString, Value)>, b: seq<(JsString, Value)>)
    requires Agree(a, b)
    ensures Covered(a, b) <==> Within(NormMembers(a), NormMembers(b))
  {
    var ps, qs := NormMembers(a), NormMembers(b);
    if Covered(a, b) {
      forall i | 0 <= i < |ps| ensures ps[i] in qs {
        var j :| 0 <= j < |b| && SameMember(a[i], b[j]);
        assert qs[j] == ps[i];
      }
    }
    if Within(ps, qs) {
      forall i | 0 <= i < |a| ensures exists j :: 0 <= j < |b| && SameMember(a[i], b[j]) {
        assert ps[i] in qs;
        var j :| 0 <= j < |qs| && qs[j] == ps[i];
        assert SameMember(a[i], b[j]);
      }
    }
  }

  lemma CoveredBackIff(a: seq<(JsString, Value)>, b: seq<(JsString, Value)>)
    requires Agree(a, b)
    ensures CoveredBack(a, b) <==> Within(NormMembers(b), NormMembers(a))
  {
    var ps, qs := NormMembers(a), NormMembers(b);
    if CoveredBack(a, b) {
      forall j | 0 <= j < |qs| ensures qs[j] in ps {
        var i :| 0 <= i < |a| && SameMember(a[i], b[j]);
        assert ps[i] == qs[j];
      }
    }
    if Within(qs, ps) {
      forall j | 0 <= j < |b| ensures exists i :: 0 <= i < |a| && SameMember(a[i], b[j]) {
        assert qs[j] in ps;
        var i :| 0 <= i < |ps| && ps[i] == qs[j];
        assert SameMember(a[i], b[j]);
      }
    }
  }

  lemma SortsAlikeIff(ps: seq<(JsString, Value)>, qs: seq<(JsString, Value)>)
    requires DistinctKeys(ps) && DistinctKeys(qs)
    ensures SortByKey(ps) == SortByKey(qs) <==> Within(ps, qs) && Within(qs, ps)
  {
    if Within(ps, qs) && Within(qs, ps) {
      SortOfSame(ps, qs);
    }
    if SortByKey(ps) == SortByKey(qs) {
      SortElements(ps);
      SortElements(qs);
      forall p ensures p in ps <==> p in qs {
        InMultiset(p, ps);
        InMultiset(p, qs);
      }
    }
  }

  lemma SameMembers(a: seq<(JsString, Value)>, b: seq<(JsString, Value)>)
    requires DistinctKeys(a) && DistinctKeys(b) && Agree(a, b)
    ensures Covered(a, b) && CoveredBack(a, b) <==> SortByKey(NormMembers(a)) == SortByKey(NormMembers(b))
  {
    CoveredIff(a, b);
    CoveredBackIff(a, b);
    SortsAlikeIff(NormMembers(a), NormMembers(b));
  }

  lemma SameItems(a: seq<Value>, b: seq<Value>)
    requires forall i :: 0 <= i < |a| && i < |b| ==> (Same(a[i], b[i]) <==> Norm(a[i]) == Norm(b[i]))
    ensures Same(Arr(a), Arr(b)) <==> Norm(Arr(a)) == Norm(Arr(b))
  {
    assert NormItems(a) == NormItems(b) <==>
      |a| == |b| && forall i :: 0 <= i < |a| ==> NormItems(a)[i] == NormItems(b)[i];
  }

  lemma {:induction false} SameIffNormEqual(v: Value, w: Value)
    requires Proper(v) && Proper(w)
    ensures Same(v, w) <==> Norm(v) == Norm(w)
    decreases v
  {
    match (v, w)
    case (Arr(a), Arr(b)) =>
      forall i | 0 <= i < |a| && i < |b| ensures Same(a[i], b[i]) <==> Norm(a[i]) == Norm(b[i]) {
        SameIffNormEqual(a[i], b[i]);
      }
      SameItems(a, b);
    case (Obj(a), Obj(b)) =>
      forall i, j | 0 <= i < |a| && 0 <= j < |b|
        ensures Same(a[i].1, b[j].1) <==> Norm(a[i].1) == Norm(b[j].1)
      {
        SameIffNormEqual(a[i].1, b[j].1);
      }
      SameMembers(a, b);
    case _ =>
  }

  /** canonicalJSON ignores key order at every depth, and nothing else. */
  lemma CanonicalIff(v: Value, w: Value)
    requires Proper(v) && Proper(w)
    ensures CanonicalJSON(v) == CanonicalJSON(w) <==> Same(v, w)
  {
    CanonicalIsPrint(v, 0, []);
    CanonicalIsPrint(w, 0, []);
    assert CanonicalJSON(v) + [] == CanonicalJSON(v) && CanonicalJSON(w) + [] == CanonicalJSON(w);
    NormProper(v);
    NormProper(w);
    SameIffNormEqual(v, w);
    if CanonicalJSON(v) == CanonicalJSON(w) {
      PrintInjective(Norm(v), Norm(w), Compact);
    }
  }

  // -------- The order of the keys --------

  /** The order of UTF-16 strings, spelled out: a shorter string comes before its continuations, and
      otherwise the first unit that differs decides. */
  ghost predicate Before(a: JsString, b: JsString) {
    || a < b
    || exists i :: 0 <= i < |a| && i < |b| && a[..i] == b[..i] && a[i] < b[i]
  }

  lemma BeforeShift(x: Unit, a: JsString, b: JsString)
    ensures Before([x] + a, [x] + b) <==> Before(a, b)
  {
    var c, d := [x] + a, [x] + b;
    if i :| 0 <= i < |a| && i < |b| && a[..i] == b[..i] && a[i] < b[i] {
      assert c[..i + 1] == [x] + a[..i] && d[..i + 1] == [x] + b[..i];
      assert c[i + 1] < d[i + 1];
    }
    if i :| 0 <= i < |c| && i < |d| && c[..i] == d[..i] && c[i] < d[i] {
      assert a[..i - 1] == c[..i][1..] && b[..i - 1] == d[..i][1..];
      assert a[i - 1] < b[i - 1];
    }
    if c < d { assert a == c[1..] && b[..|a|] == d[..|c|][1..]; }
    if a < b { assert d[..|c|] == [x] + b[..|a|]; }
  }

  lemma {:induction false} LessIsBefore(a: JsString, b: JsString)
    ensures Less(a, b) <==> Before(a, b)
  {
    if a != [] && b != [] {
      if a[0] == b[0] {
        LessIsBefore(a[1..], b[1..]);
        BeforeShift(a[0], a[1..], b[1..]);
        assert a == [a[0]] + a[1..] && b == [b[0]] + b[1..];
      } else if a[0] < b[0] {
        assert a[..0] == b[..0] == [];
      } else {
        forall i | 0 <= i < |a| && i < |b| ensures !(a[..i] == b[..i] && a[i] < b[i]) {
          if i > 0 { assert a[..i][0] != b[..i][0]; }
        }
      }
    }
  }

  /** At every depth each key of an object comes before the next one. */
  ghost predicate KeysAscend(v: Value) {
    match v
    case Arr(items) => forall i :: 0 <= i < |items| ==> KeysAscend(items[i])
    case Obj(ms) =>
      && (forall i :: 0 < i < |ms| ==> Before(ms[i - 1].0, ms[i].0))
      && forall i :: 0 <= i < |ms| ==> KeysAscend(ms[i].1)
    case _ => true
  }

  lemma {:induction false} NormAscends(v: Value)
    requires Proper(v)
    ensures KeysAscend(Norm(v))
    decreases v
  {
    match v
    case Arr(items) =>
      forall i | 0 <= i < |items| ensures KeysAscend(Norm(items[i])) {
        NormAscends(items[i]);
      }
    case Obj(ms) =>
      var ps := NormMembers(ms);
      forall i | 0 <= i < |ms| ensures KeysAscend(ps[i].1) {
        NormAscends(ms[i].1);
      }
      SortAscends(ps);
      SortElements(ps);
      var sorted := SortByKey(ps);
      forall i | 0 < i < |sorted| ensures Before(sorted[i - 1].0, sorted[i].0) {
        LessIsBefore(sorted[i - 1].0, sorted[i].0);
      }
      forall i | 0 <= i < |sorted| ensures KeysAscend(sorted[i].1) {
        InMultiset(sorted[i], sorted);
        InMultiset(sorted[i], ps);
      }
    case _ =>
  }

  /** What parsing the canonical text gives back: the value up to key order, with its keys
      ascending by UTF-16 units at every depth. */
  lemma ParseCanonical(v: Value)
    requires Proper(v)
    ensures Parse(CanonicalJSON(v)) == Some(Norm(v))
    ensures Same(Norm(v), v) && KeysAscend(Norm(v))
  {
    NormProper(v);
    NormAscends(v);
    CanonicalIsPrint(v, 0, []);
    assert CanonicalJSON(v) + [] == CanonicalJSON(v);
    assert [] + PrintOnto(Norm(v), Compact, 0, []) == CanonicalJSON(v);
    ParsePrint(Norm(v), Compact, [], []);
    NormTwice(v);
    SameIffNormEqual(Norm(v), v);
  }

  /** The canonical text is the compact print of the one value that has ascending keys and is
      the same up to key order. */
  lemma CanonicalIsAscendingPrint(v: Value, w: Value)
    requires Proper(v) && Proper(w) && Same(w, v) && KeysAscend(w)
    ensures CanonicalJSON(v) == Print(w, Compact)
  {
    SameIffNormEqual(w, v);
    AscendingIsNorm(w);
    CanonicalIsPrint(v, 0, []);
    assert CanonicalJSON(v) + [] == CanonicalJSON(v);
  }

  lemma {:induction false} AscendingKeys(ms: seq<(JsString, Value)>, i: nat, j: nat)
    requires (forall k :: 0 < k < |ms| ==> Before(ms[k - 1].0, ms[k].0)) && i < j < |ms|
    ensures Less(ms[i].0, ms[j].0)
    decreases j - i
  {
    LessIsBefore(ms[j - 1].0, ms[j].0);
    if i < j - 1 {
      AscendingKeys(ms, i, j - 1);
      LessIsStrictOrder(ms[i].0, ms[j - 1].0, ms[j].0);
    }
  }

  lemma {:induction false} AscendingIsNorm(v: Value)
    requires Proper(v) && KeysAscend(v)
    ensures Norm(v) == v
    decreases v
  {
    match v
    case Arr(items) =>
      forall i | 0 <= i < |items| ensures Norm(items[i]) == items[i] {
        AscendingIsNorm(items[i]);
      }
      assert NormItems(items) == items;
    case Obj(ms) =>
      forall i | 0 <= i < |ms| ensures NormMember(ms[i]) == ms[i] {
        AscendingIsNorm(ms[i].1);
      }
      assert NormMembers(ms) == ms;
      forall i, j | 0 <= i < j < |ms| ensures Less(ms[i].0, ms[j].0) {
        AscendingKeys(ms, i, j);
      }
      SortElements(ms);
      SortAscends(ms);
      AscendingUnique(SortByKey(ms), ms);
    case _ =>
  }

  lemma {:induction false} NormTwice(v: Value)
    requires Proper(v)
    ensures Norm(Norm(v)) == Norm(v)
    decreases v
  {
    match v
    case Arr(items) =>
      forall i | 0 <= i < |items| ensures Norm(Norm(items[i])) == Norm(items[i]) {
        NormTwice(items[i]);
      }
      assert NormItems(NormItems(items)) == NormItems(items);
    case Obj(ms) =>
      var ps := NormMembers(ms);
      SortAscends(ps);
      SortElements(ps);
      var sorted := SortByKey(ps);
      forall i | 0 <= i < |sorted| ensures NormMember(sorted[i]) == sorted[i] {
        InMultiset(sorted[i], sorted);
        InMultiset(sorted[i], ps);
        var k :| 0 <= k < |ps| && ps[k] == sorted[i];
        NormTwice(ms[k].1);
      }
      assert NormMembers(sorted) == sorted;
      SortElements(sorted);
      AscendingIsDistinct(sorted);
      SortAscends(sorted);
      AscendingUnique(SortByKey(sorted), sorted);
    case _ =>
  }
}
