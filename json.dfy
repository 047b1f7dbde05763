/**
 * JSON values as `comment-json` parses them, with JavaScript's `undefined`
 * kept outside the tree (`Slot.Absent`).  Objects are association lists in
 * the order their members are stored (JavaScript's ordering of integer-like
 * keys first is not modelled); deep equality (lodash `isEqual`) ignores that
 * order.
 */
module Json {

  /** A parsed JSON value.  Numbers are modelled as integers. */
  datatype Json =
    | JNull
    | JBool(b: bool)
    | JNum(n: int)
    | JStr(s: string)
    | JArr(items: seq<Json>)
    | JObj(members: seq<(string, Json)>)

  /** A JSON value or `undefined`: what reading a property of an object yields. */
  datatype Slot = Absent | Present(v: Json)

  /** Object keys in stored order (`Object.keys`, integer-like keys not moved first); also the keys of a `Map`. */
  function Keys<V>(m: seq<(string, V)>): (ks: seq<string>)
    ensures |ks| == |m|
    ensures forall i :: 0 <= i < |m| ==> ks[i] == m[i].0
  {
    seq(|m|, i requires 0 <= i < |m| => m[i].0)
  }

  /** The own properties of a JavaScript object have pairwise distinct names. */
  predicate UniqueKeys(m: seq<(string, Json)>) {
    forall i, j :: 0 <= i < j < |m| ==> m[i].0 != m[j].0
  }

  /** Every object inside the value has unique keys, as every parsed value does. */
  predicate WellFormed(j: Json) {
    match j
    case JArr(items) => forall i :: 0 <= i < |items| ==> WellFormed(items[i])
    case JObj(m) => UniqueKeys(m) && forall i :: 0 <= i < |m| ==> WellFormed(m[i].1)
    case _ => true
  }

  /** A size measure that decreases from an object to any of its member values. */
  function Size(j: Json): nat {
    match j
    case JObj(m) => 1 + Sum(seq(|m|, i requires 0 <= i < |m| => Size(m[i].1)))
    case _ => 1
  }

  function Sum(s: seq<nat>): nat {
    if s == [] then 0 else s[0] + Sum(s[1..])
  }

  lemma {:induction false} SumBoundsElement(s: seq<nat>, i: nat)
    requires i < |s|
    ensures s[i] <= Sum(s)
  {
    if i > 0 {
      SumBoundsElement(s[1..], i - 1);
    }
  }

  function SlotSize(s: Slot): nat {
    if s.Present? then Size(s.v) else 0
  }

  /** A member's value is smaller than the object holding it. */
  lemma MemberSmaller(m: seq<(string, Json)>, kv: (string, Json))
    requires kv in m
    ensures Size(kv.1) < Size(JObj(m))
  {
    var i :| 0 <= i < |m| && m[i] == kv;
    SumBoundsElement(seq(|m|, i requires 0 <= i < |m| => Size(m[i].1)), i);
  }

  /** `obj[k]` on an object: the first member named `k`, or `undefined`. */
  function Lookup(m: seq<(string, Json)>, k: string): (r: Slot)
    ensures r.Present? <==> k in Keys(m)
    ensures r.Present? ==> (k, r.v) in m
  {
    if m == [] then Absent
    else if m[0].0 == k then Present(m[0].1)
    else
      assert Keys(m) == [m[0].0] + Keys(m[1..]);
      Lookup(m[1..], k)
  }

  /** Reading a property never yields something larger than the object read. */
  lemma LookupSmaller(m: seq<(string, Json)>, k: string)
    ensures SlotSize(Lookup(m, k)) < Size(JObj(m))
  {
    var r := Lookup(m, k);
    if r.Present? {
      MemberSmaller(m, (k, r.v));
    }
  }

  /** JavaScript's `typeof`: arrays and null are "object" as well. */
  function TypeOf(s: Slot): string {
    match s
    case Absent => "undefined"
    case Present(JBool(_)) => "boolean"
    case Present(JNum(_)) => "number"
    case Present(JStr(_)) => "string"
    case Present(_) => "object"
  }

  /** `isObject`: of type "object", not an array and not null; exactly the objects. */
  function IsObject(s: Slot): (b: bool)
    ensures b <==> TypeOf(s) == "object" && !(s.Present? && s.v.JArr?) && s != Present(JNull)
  {
    s.Present? && s.v.JObj?
  }

  /**
   * Reading property `k`: an object's member, `undefined` for anything else
   * (arrays and strings indexed by a numeric key are not modelled).
   */
  function Member(s: Slot, k: string): Slot {
    if IsObject(s) then Lookup(s.v.members, k) else Absent
  }

  /** The value found by following the key path `p` from `s`. */
  function SlotAt(s: Slot, p: seq<string>): Slot
    decreases |p|
  {
    if p == [] then s else SlotAt(Member(s, p[0]), p[1..])
  }

  /** Deep equality, as lodash `isEqual` decides it on JSON values. */
  predicate JsonEq(x: Json, y: Json)
    decreases x
  {
    match x
    case JArr(xs) =>
      && y.JArr?
      && |xs| == |y.items|
      && forall i :: 0 <= i < |xs| ==> JsonEq(xs[i], y.items[i])
    case JObj(xm) =>
      && y.JObj?
      && (forall k :: k in Keys(xm) ==> k in Keys(y.members))
      && (forall k :: k in Keys(y.members) ==> k in Keys(xm))
      && forall i :: 0 <= i < |xm| ==> MemberEq(xm[i], y.members)
    case _ => x == y
  }

  /** The member `kv` has a deep-equal counterpart in `ym`. */
  predicate MemberEq(kv: (string, Json), ym: seq<(string, Json)>)
    decreases kv, 0
  {
    var s := Lookup(ym, kv.0);
    s.Present? && JsonEq(kv.1, s.v)
  }

  /** Deep equality extended to `undefined`, which equals only itself. */
  predicate SlotEq(x: Slot, y: Slot) {
    match x
    case Absent => y.Absent?
    case Present(v) => y.Present? && JsonEq(v, y.v)
  }

  /** On well-formed values deep equality is reflexive. */
  lemma {:induction false} JsonEqReflexive(x: Json)
    requires WellFormed(x)
    ensures JsonEq(x, x)
    decreases x
  {
    match x
    case JArr(xs) =>
      forall i | 0 <= i < |xs| ensures JsonEq(xs[i], xs[i]) {
        JsonEqReflexive(xs[i]);
      }
    case JObj(xm) =>
      forall i | 0 <= i < |xm| ensures MemberEq(xm[i], xm) {
        LookupUnique(xm, i);
        JsonEqReflexive(xm[i].1);
      }
    case _ =>
  }

  /** With unique keys, looking up the key of member `i` finds member `i`. */
  lemma {:induction false} LookupUnique(m: seq<(string, Json)>, i: nat)
    requires UniqueKeys(m) && i < |m|
    ensures Lookup(m, m[i].0) == Present(m[i].1)
  {
    if i > 0 {
      LookupUnique(m[1..], i - 1);
    }
  }

  lemma SlotEqReflexive(x: Slot)
    requires x.Present? ==> WellFormed(x.v)
    ensures SlotEq(x, x)
  {
    if x.Present? {
      JsonEqReflexive(x.v);
    }
  }
}
