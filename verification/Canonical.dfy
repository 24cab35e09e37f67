/** The recursive sorted-key printer whose bytes are the vault's additional data. */
module Canonical {
  import opened Utf
  import opened Json

  // -------- Sorting by key --------

  /** The order of Array.prototype.sort on strings: by UTF-16 units. */
  predicate Less(a: JsString, b: JsString) {
    if b == [] then false
    else if a == [] then true
    else if a[0] != b[0] then a[0] < b[0]
    else Less(a[1..], b[1..])
  }

  function Insert<T>(p: (JsString, T), ps: seq<(JsString, T)>): seq<(JsString, T)> {
    if ps == [] then [p]
    else if Less(ps[0].0, p.0) then [ps[0]] + Insert(p, ps[1..])
    else [p] + ps
  }

  function SortByKey<T>(ps: seq<(JsString, T)>): seq<(JsString, T)> {
    if ps == [] then [] else Insert(ps[0], SortByKey(ps[1..]))
  }

  predicate Ascending<T>(ps: seq<(JsString, T)>) {
    forall i, j :: 0 <= i < j < |ps| ==> Less(ps[i].0, ps[j].0)
  }

  lemma {:induction false} LessIsStrictOrder(a: JsString, b: JsString, c: JsString)
    ensures !Less(a, a)
    ensures a == b || Less(a, b) || Less(b, a)
    ensures !(Less(a, b) && Less(b, a))
    ensures Less(a, b) && Less(b, c) ==> Less(a, c)
  {
    if a != [] {
      LessIsStrictOrder(a[1..], if b != [] then b[1..] else [], if c != [] then c[1..] else []);
      if b != [] && a[0] == b[0] && a[1..] == b[1..] {
        assert a == [a[0]] + a[1..] && b == [b[0]] + b[1..];
      }
    }
  }

  lemma {:induction false} InsertElements<T>(p: (JsString, T), ps: seq<(JsString, T)>)
    ensures multiset(Insert(p, ps)) == multiset{p} + multiset(ps)
    ensures |Insert(p, ps)| == |ps| + 1
  {
    if ps != [] && Less(ps[0].0, p.0) {
      InsertElements(p, ps[1..]);
      assert ps == [ps[0]] + ps[1..];
    }
  }

  lemma {:induction false} SortElements<T>(ps: seq<(JsString, T)>)
    ensures multiset(SortByKey(ps)) == multiset(ps) && |SortByKey(ps)| == |ps|
  {
    if ps != [] {
      SortElements(ps[1..]);
      InsertElements(ps[0], SortByKey(ps[1..]));
      assert ps == [ps[0]] + ps[1..];
    }
  }

  lemma InMultiset<T>(p: T, ps: seq<T>)
    ensures p in ps <==> p in multiset(ps)
  {
  }

  lemma {:induction false} InsertAscends<T>(p: (JsString, T), ps: seq<(JsString, T)>)
    requires Ascending(ps) && forall i :: 0 <= i < |ps| ==> ps[i].0 != p.0
    ensures Ascending(Insert(p, ps))
  {
    if ps == [] {
    } else if Less(ps[0].0, p.0) {
      InsertAscends(p, ps[1..]);
      var rest := Insert(p, ps[1..]);
      InsertElements(p, ps[1..]);
      forall j | 0 <= j < |rest| ensures Less(ps[0].0, rest[j].0) {
        InMultiset(rest[j], rest);
        InMultiset(rest[j], ps[1..]);
      }
    } else {
      forall j | 0 <= j < |ps| ensures Less(p.0, ps[j].0) {
        LessIsStrictOrder(p.0, ps[0].0, ps[j].0);
      }
    }
  }

  lemma {:induction false} SortAscends<T>(ps: seq<(JsString, T)>)
    requires DistinctKeys(ps)
    ensures Ascending(SortByKey(ps))
  {
    if ps != [] {
      SortAscends(ps[1..]);
      var rest := SortByKey(ps[1..]);
      SortElements(ps[1..]);
      forall i | 0 <= i < |rest| ensures rest[i].0 != ps[0].0 {
        InMultiset(rest[i], rest);
        InMultiset(rest[i], ps[1..]);
      }
      InsertAscends(ps[0], rest);
    }
  }

  lemma AscendingIsDistinct<T>(ps: seq<(JsString, T)>)
    requires Ascending(ps)
    ensures DistinctKeys(ps)
  {
    forall i, j | 0 <= i < j < |ps| ensures ps[i].0 != ps[j].0 {
      LessIsStrictOrder(ps[i].0, ps[j].0, ps[j].0);
    }
  }

  /** Of two ascending lists with the same elements, neither starts before the other. */
  lemma AscendingFirst<T>(ps: seq<(JsString, T)>, qs: seq<(JsString, T)>)
    requires Ascending(ps) && Ascending(qs) && ps != [] && qs != [] && ps[0] in qs && qs[0] in ps
    ensures ps[0] == qs[0]
  {
    var j :| 0 <= j < |qs| && qs[j] == ps[0];
    var i :| 0 <= i < |ps| && ps[i] == qs[0];
    LessIsStrictOrder(ps[0].0, qs[0].0, ps[0].0);
  }

  lemma MultisetRest<T>(ps: seq<T>)
    requires ps != []
    ensures ps[0] in multiset(ps) && multiset(ps[1..]) == multiset(ps) - multiset{ps[0]}
  {
    assert ps == [ps[0]] + ps[1..];
  }

  /** Two ascending lists with the same elements are the same list. */
  lemma {:induction false} AscendingUnique<T>(ps: seq<(JsString, T)>, qs: seq<(JsString, T)>)
    requires Ascending(ps) && Ascending(qs) && multiset(ps) == multiset(qs)
    ensures ps == qs
  {
    if ps == [] {
      assert |multiset(qs)| == |qs|;
    } else {
      assert |multiset(ps)| == |ps|;
      MultisetRest(ps);
      MultisetRest(qs);
      InMultiset(ps[0], qs);
      InMultiset(qs[0], ps);
      AscendingFirst(ps, qs);
      AscendingUnique(ps[1..], qs[1..]);
      assert ps == [ps[0]] + ps[1..] && qs == [qs[0]] + qs[1..];
    }
  }

  // -------- canonicalJSON --------

  function JoinComma(parts: seq<JsString>): JsString {
    if parts == [] then []
    else if |parts| == 1 then parts[0]
    else parts[0] + [COMMA] + JoinComma(parts[1..])
  }

  function Keyed(p: (JsString, JsString)): JsString { QuoteOnto(p.0, [COLON]) + p.1 }

  function KeyedAll(ps: seq<(JsString, JsString)>): seq<JsString> {
    if ps == [] then [] else [Keyed(ps[0])] + KeyedAll(ps[1..])
  }

  function CanonicalJSON(v: Value): JsString
    decreases v, 1
  {
    match v
    case Arr(items) => [LBRACKET] + JoinComma(CanonicalItems(items)) + [RBRACKET]
    case Obj(ms) => [LBRACE] + JoinComma(KeyedAll(SortByKey(CanonicalMembers(ms)))) + [RBRACE]
    case _ => Print(v, Compact)
  }

  function CanonicalItems(items: seq<Value>): seq<JsString>
    decreases items, 0
  {
    if items == [] then [] else [CanonicalJSON(items[0])] + CanonicalItems(items[1..])
  }

  function CanonicalMembers(ms: seq<(JsString, Value)>): seq<(JsString, JsString)>
    decreases ms, 0
  {
    if ms == [] then [] else [CanonicalMember(ms[0])] + CanonicalMembers(ms[1..])
  }

  function CanonicalMember(m: (JsString, Value)): (JsString, JsString)
    decreases m, 2
  {
    (m.0, CanonicalJSON(m.1))
  }

  // -------- Normal form: keys sorted at every depth --------

  function Norm(v: Value): Value
    decreases v, 1
  {
    match v
    case Arr(items) => Arr(NormItems(items))
    case Obj(ms) => Obj(SortByKey(NormMembers(ms)))
    case _ => v
  }

  function NormItems(items: seq<Value>): (r: seq<Value>)
    ensures |r| == |items| && forall i :: 0 <= i < |items| ==> r[i] == Norm(items[i])
    decreases items, 0
  {
    if items == [] then [] else [Norm(items[0])] + NormItems(items[1..])
  }

  function NormMembers(ms: seq<(JsString, Value)>): (r: seq<(JsString, Value)>)
    ensures |r| == |ms| && forall i :: 0 <= i < |ms| ==> r[i] == NormMember(ms[i])
    decreases ms, 0
  {
    if ms == [] then [] else [NormMember(ms[0])] + NormMembers(ms[1..])
  }

  function NormMember(m: (JsString, Value)): (JsString, Value)
    decreases m, 2
  {
    (m.0, Norm(m.1))
  }

  /** Equality up to the order of keys, at every depth. */
  ghost predicate Same(v: Value, w: Value)
    decreases v, 1
  {
    match (v, w)
    case (Arr(a), Arr(b)) => |a| == |b| && forall i :: 0 <= i < |a| ==> Same(a[i], b[i])
    case (Obj(a), Obj(b)) => Covered(a, b) && CoveredBack(a, b)
    case _ => v == w
  }

  /** Every member of a has its like in b. */
  ghost predicate Covered(a: seq<(JsString, Value)>, b: seq<(JsString, Value)>)
    decreases a, 0
  {
    forall i :: 0 <= i < |a| ==> exists j :: 0 <= j < |b| && SameMember(a[i], b[j])
  }

  /** Every member of b has its like in a. */
  ghost predicate CoveredBack(a: seq<(JsString, Value)>, b: seq<(JsString, Value)>)
    decreases a, 0
  {
    forall j :: 0 <= j < |b| ==> exists i :: 0 <= i < |a| && SameMember(a[i], b[j])
  }

  ghost predicate SameMember(p: (JsString, Value), q: (JsString, Value))
    decreases p, 2
  {
    p.0 == q.0 && Same(p.1, q.1)
  }
}
