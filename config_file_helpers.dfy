/**
 * The structural three-way merge of JSON config files
 * (src/lib/configFileHelpers.ts): which files count as config files,
 * `configDiff` (a recursive merge producing one node per diverging leaf)
 * and `applyChanges` (folding those nodes into two copies of a base document).
 */
module ConfigFileHelpers {
  import opened Wrappers
  import opened Json

  // ---------------------------------------------------------------------------
  // isConfigFile
  // ---------------------------------------------------------------------------

  /** The config file types the tool recognises (`ConfigFileTypes` in src/lib/types.ts). */
  datatype ConfigFileType = JSON

  function Extension(t: ConfigFileType): string {
    match t
    case JSON => ".json"
  }

  function LowerChar(c: char): char {
    if 'A' <= c <= 'Z' then (c as int + 32) as char else c
  }

  /** `toLowerCase`, on the ASCII letters. */
  function ToLower(s: string): (r: string)
    ensures |r| == |s|
  {
    if s == [] then [] else [LowerChar(s[0])] + ToLower(s[1..])
  }

  function StripTrailingSlashes(p: string): (r: string)
    ensures IsPrefixOf(r, p)
    ensures r == [] || r[|r| - 1] != '/'
    decreases |p|
  {
    if |p| > 0 && p[|p| - 1] == '/' then StripTrailingSlashes(p[..|p| - 1]) else p
  }

  /** The characters after the last `/`. */
  function LastSegment(p: string): (r: string)
    ensures IsSuffixOf(r, p)
    ensures '/' !in r
    decreases |p|
  {
    if p == [] || p[|p| - 1] == '/' then []
    else LastSegment(p[..|p| - 1]) + [p[|p| - 1]]
  }

  predicate IsPrefixOf<T(==)>(p: seq<T>, s: seq<T>) {
    |p| <= |s| && s[..|p|] == p
  }

  predicate IsSuffixOf<T(==)>(p: seq<T>, s: seq<T>) {
    |p| <= |s| && s[|s| - |p|..] == p
  }

  function LastIndexOf(s: string, c: char): (r: Option<nat>)
    ensures r.Some? ==> r.value < |s| && s[r.value] == c && c !in s[r.value + 1..]
    ensures r.None? ==> c !in s
    decreases |s|
  {
    if s == [] then None
    else if s[|s| - 1] == c then Some(|s| - 1)
    else
      var r := LastIndexOf(s[..|s| - 1], c);
      assert s == s[..|s| - 1] + [s[|s| - 1]];
      if r.Some? then
        assert s[r.value + 1..] == s[..|s| - 1][r.value + 1..] + [s[|s| - 1]];
        r
      else r
  }

  /**
   * Node's posix `path.extname`: from the last `.` of the last path segment
   * (trailing slashes ignored) to its end; empty when that segment has no dot,
   * starts with its only dot (a dotfile) or is `..`.
   */
  function Extname(path: string): (e: string)
    ensures e == [] || (e[0] == '.' && '.' !in e[1..] && '/' !in e)
    ensures IsSuffixOf(e, StripTrailingSlashes(path))
  {
    var base := LastSegment(StripTrailingSlashes(path));
    match LastIndexOf(base, '.')
    case None => ""
    case Some(d) =>
      if d == 0 || base == ".." then ""
      else
        assert base[d..][1..] == base[d + 1..];
        assert forall c :: c in base[d..] ==> c in base;
        base[d..]
  }

  /**
   * `isConfigFile`: the config type whose extension is the lower-cased
   * `extname`, if any.  The config files are exactly the paths whose last
   * segment ends in `.json`, in any letter case, after at least one character.
   */
  function IsConfigFile(path: string): (r: Option<ConfigFileType>)
    ensures r.Some? <==> JsonName(BaseName(path))
    ensures r.Some? ==> Extension(r.value) == ToLower(BaseName(path)[|BaseName(path)| - 5..])
  {
    JsonExtensionIffJsonName(path);
    var t := ToLower(Extname(path));
    if t == Extension(JSON) then Some(JSON) else None
  }

  /** The last path segment, trailing slashes ignored. */
  function BaseName(path: string): string {
    LastSegment(StripTrailingSlashes(path))
  }

  /** Ends with `.json` in any letter case, with at least one character before it. */
  predicate JsonName(seg: string) {
    |seg| > 5 && ToLower(seg[|seg| - 5..]) == ".json"
  }

  /**
   * The lower-cased `extname` is `.json` exactly when the last segment of the
   * path is longer than `.json` and ends with `.json` in any letter case.
   */
  lemma JsonExtensionIffJsonName(path: string)
    ensures ToLower(Extname(path)) == ".json" <==> JsonName(BaseName(path))
  {
    if ToLower(Extname(path)) == ".json" {
      ConfigFileHasJsonName(path);
    }
    if JsonName(BaseName(path)) {
      JsonNameIsConfigFile(path);
    }
  }

  lemma ConfigFileHasJsonName(path: string)
    requires ToLower(Extname(path)) == ".json"
    ensures JsonName(BaseName(path))
  {
    var seg, e := BaseName(path), Extname(path);
    assert ToLower(e) == ".json";
    assert |e| == 5 by {
      assert |ToLower(e)| == |e|;
    }
    assert |e| < |seg| && seg[|seg| - 5..] == e by {
      ExtnameOfSegment(path);
    }
  }

  lemma JsonNameIsConfigFile(path: string)
    requires JsonName(BaseName(path))
    ensures ToLower(Extname(path)) == ".json"
  {
    var seg := BaseName(path);
    var tail := seg[|seg| - 5..];
    LowerJson(tail);
    assert seg[|seg| - 4..] == tail[1..];
    LastIndexOfUnique(seg, '.', |seg| - 5);
    assert seg != ".." by {
      assert |seg| > 5;
    }
    assert Extname(path) == tail;
  }

  /** A non-empty extension is a proper suffix of the last segment. */
  lemma ExtnameOfSegment(path: string)
    ensures var seg := LastSegment(StripTrailingSlashes(path));
      var e := Extname(path);
      e == [] || (|e| < |seg| && e == seg[|seg| - |e|..])
  {
    var seg := LastSegment(StripTrailingSlashes(path));
    match LastIndexOf(seg, '.')
    case None =>
    case Some(d) =>
      if d != 0 && seg != ".." {
        assert Extname(path) == seg[d..];
        assert |seg| - |seg[d..]| == d;
      }
  }

  lemma {:induction false} ToLowerAt(s: string, i: nat)
    requires i < |s|
    ensures ToLower(s)[i] == LowerChar(s[i])
    decreases i
  {
    assert ToLower(s) == [LowerChar(s[0])] + ToLower(s[1..]);
    if i > 0 {
      ToLowerAt(s[1..], i - 1);
      assert s[1..][i - 1] == s[i];
    }
  }

  /** What lower-cases to `.json` starts with its only dot. */
  lemma LowerJson(t: string)
    requires ToLower(t) == ".json"
    ensures |t| == 5 && t[0] == '.' && '.' !in t[1..]
  {
    forall i | 0 <= i < 5 ensures LowerChar(t[i]) == ".json"[i] {
      ToLowerAt(t, i);
    }
  }

  lemma LastIndexOfUnique(s: string, c: char, i: nat)
    requires i < |s| && s[i] == c && c !in s[i + 1..]
    ensures LastIndexOf(s, c) == Some(i)
  {
    assert s[i] in s;
    var j := LastIndexOf(s, c).value;
    assert forall k :: j < k < |s| ==> s[k] in s[j + 1..];
    assert forall k :: i < k < |s| ==> s[k] in s[i + 1..];
  }

  // ---------------------------------------------------------------------------
  // configDiff
  // ---------------------------------------------------------------------------

  /** One merge decision: the key path, the value to end up with, and whether both sides changed. */
  datatype Node = Node(keys: seq<string>, final: Slot, isConflict: bool)

  /** `configDiff` throws a TypeError when it reads `before[key]` with `before` undefined or null. */
  datatype DiffError = UnreadableBefore(keys: seq<string>)

  /** The three-way decision at a leaf, in the order the source checks it. */
  function LeafRule(before: Slot, current: Slot, after: Slot): (Slot, bool) {
    if SlotEq(before, current) then (after, false)
    else if SlotEq(before, after) then (current, false)
    else (after, true)
  }

  predicate NoDup<T(==)>(s: seq<T>) {
    forall i, j :: 0 <= i < j < |s| ==> s[i] != s[j]
  }

  /** Keeps the first occurrence of each element (`[...new Set(s)]`). */
  function Dedup(s: seq<string>): (r: seq<string>)
    ensures NoDup(r)
    ensures forall x :: x in r <==> x in s
    decreases |s|
  {
    if s == [] then []
    else
      var d := Dedup(s[..|s| - 1]);
      assert s == s[..|s| - 1] + [s[|s| - 1]];
      if s[|s| - 1] in d then d else d + [s[|s| - 1]]
  }

  /** The keys `configDiff` visits: current's keys, then after's, each once. */
  function UnionKeys(cm: seq<(string, Json)>, am: seq<(string, Json)>): (ks: seq<string>)
    ensures NoDup(ks)
    ensures forall k :: k in ks <==> k in Keys(cm) || k in Keys(am)
  {
    Dedup(Keys(cm) + Keys(am))
  }

  /** No node's key path is a prefix of (or equal to) another's. */
  ghost predicate PrefixFree(ns: seq<Node>) {
    forall i, j :: 0 <= i < |ns| && 0 <= j < |ns| && i != j ==> !IsPrefixOf(ns[i].keys, ns[j].keys)
  }

  /**
   * Following `p` from the three documents passes only through pairs of
   * objects (current, after) that differ, and ends at a pair that differs and
   * is not a pair of objects, where the leaf rule yields `(final, conflict)`.
   */
  ghost predicate Diverges(b: Slot, c: Slot, a: Slot, p: seq<string>, final: Slot, conflict: bool)
    decreases |p|
  {
    if p == [] then
      && !SlotEq(c, a)
      && !(IsObject(c) && IsObject(a))
      && LeafRule(b, c, a) == (final, conflict)
    else
      && IsObject(c) && IsObject(a)
      && !SlotEq(c, a)
      && Diverges(Member(b, p[0]), Member(c, p[0]), Member(a, p[0]), p[1..], final, conflict)
  }

  /**
   * `configDiff(before, current, after, keys)`: nothing when current deep-equals
   * after; otherwise recurse into the keys when both are objects; otherwise one
   * node at `keys` decided by the leaf rule.
   */
  function ConfigDiff(before: Slot, current: Slot, after: Slot, keys: seq<string>): (r: Result<seq<Node>, DiffError>)
    ensures SlotEq(current, after) ==> r == Ok([])
    decreases SlotSize(current) + SlotSize(after), 1
  {
    if SlotEq(current, after) then Ok([])
    else if IsObject(current) && IsObject(after) then
      DiffMembers(before, current.v.members, after.v.members, keys, UnionKeys(current.v.members, after.v.members))
    else
      var (final, conflict) := LeafRule(before, current, after);
      Ok([Node(keys, final, conflict)])
  }

  /** The loop of lines 56-65: the nodes of each key in `ks`, concatenated. */
  function DiffMembers(before: Slot, cm: seq<(string, Json)>, am: seq<(string, Json)>,
                       keys: seq<string>, ks: seq<string>): Result<seq<Node>, DiffError>
    decreases Size(JObj(cm)) + Size(JObj(am)), 0, |ks|
  {
    if ks == [] then Ok([])
    else if Nullish(before) then Err(UnreadableBefore(keys))
    else
      var k := ks[0];
      LookupSmaller(cm, k);
      LookupSmaller(am, k);
      var head := ConfigDiff(Member(before, k), Lookup(cm, k), Lookup(am, k), keys + [k]);
      if head.Err? then Err(head.error)
      else
        var tail := DiffMembers(before, cm, am, keys, ks[1..]);
        if tail.Err? then Err(tail.error)
        else Ok(head.value + tail.value)
  }

  /**
   * Every node's key path extends `keys` by a path along which the three
   * documents diverge, and no node's path is a prefix of another's.
   */
  lemma {:induction false} ConfigDiffSound(before: Slot, current: Slot, after: Slot, keys: seq<string>)
    ensures var r := ConfigDiff(before, current, after, keys);
      r.Ok? ==>
        && (forall n :: n in r.value ==>
              IsPrefixOf(keys, n.keys) && Diverges(before, current, after, n.keys[|keys|..], n.final, n.isConflict))
        && PrefixFree(r.value)
    decreases SlotSize(current) + SlotSize(after), 1
  {
    var r := ConfigDiff(before, current, after, keys);
    if !SlotEq(current, after) && r.Ok? {
      if IsObject(current) && IsObject(after) {
        DiffMembersSound(before, current.v.members, after.v.members, keys, UnionKeys(current.v.members, after.v.members));
        forall n | n in r.value
          ensures IsPrefixOf(keys, n.keys) && Diverges(before, current, after, n.keys[|keys|..], n.final, n.isConflict)
        {
          assert n.keys[|keys|..][1..] == n.keys[|keys| + 1..];
        }
      } else {
        assert r.value[0].keys[|keys|..] == [];
      }
    }
  }

  /** The same facts for the loop over `ks`, its keys distinct: nodes of different keys part at depth |keys|. */
  lemma {:induction false} DiffMembersSound(before: Slot, cm: seq<(string, Json)>, am: seq<(string, Json)>,
                                            keys: seq<string>, ks: seq<string>)
    requires NoDup(ks)
    ensures var r := DiffMembers(before, cm, am, keys, ks);
      r.Ok? ==>
        && (forall n :: n in r.value ==>
              && |keys| < |n.keys|
              && n.keys[..|keys|] == keys
              && n.keys[|keys|] in ks
              && Diverges(Member(before, n.keys[|keys|]), Lookup(cm, n.keys[|keys|]), Lookup(am, n.keys[|keys|]),
                          n.keys[|keys| + 1..], n.final, n.isConflict))
        && PrefixFree(r.value)
    decreases Size(JObj(cm)) + Size(JObj(am)), 0, |ks|
  {
    if ks != [] && !Nullish(before) {
      var k := ks[0];
      LookupSmaller(cm, k);
      LookupSmaller(am, k);
      var head := ConfigDiff(Member(before, k), Lookup(cm, k), Lookup(am, k), keys + [k]);
      var tail := DiffMembers(before, cm, am, keys, ks[1..]);
      if head.Ok? && tail.Ok? {
        ConfigDiffSound(Member(before, k), Lookup(cm, k), Lookup(am, k), keys + [k]);
        assert NoDup(ks[1..]) && k !in ks[1..];
        DiffMembersSound(before, cm, am, keys, ks[1..]);
        ChildNodes(before, cm, am, keys, k, head.value);
        PrefixFreeConcat(head.value, tail.value, |keys|);
      }
    }
  }

  /** The facts `DiffMembers` states, for the nodes of one child key. */
  lemma ChildNodes(before: Slot, cm: seq<(string, Json)>, am: seq<(string, Json)>,
                   keys: seq<string>, k: string, head: seq<Node>)
    requires forall n :: n in head ==>
      IsPrefixOf(keys + [k], n.keys) &&
      Diverges(Member(before, k), Lookup(cm, k), Lookup(am, k), n.keys[|keys + [k]|..], n.final, n.isConflict)
    ensures forall n :: n in head ==>
      && |keys| < |n.keys|
      && n.keys[..|keys|] == keys
      && n.keys[|keys|] == k
      && Diverges(Member(before, n.keys[|keys|]), Lookup(cm, n.keys[|keys|]), Lookup(am, n.keys[|keys|]),
                  n.keys[|keys| + 1..], n.final, n.isConflict)
  {
    forall n | n in head
      ensures |keys| < |n.keys| && n.keys[..|keys|] == keys && n.keys[|keys|] == k
      ensures n.keys[|keys + [k]|..] == n.keys[|keys| + 1..]
    {
      ExtendedPrefix(keys, k, n.keys);
    }
  }

  lemma ExtendedPrefix(keys: seq<string>, k: string, q: seq<string>)
    requires IsPrefixOf(keys + [k], q)
    ensures |keys| < |q| && q[..|keys|] == keys && q[|keys|] == k
    ensures q[|keys + [k]|..] == q[|keys| + 1..]
  {
    assert q[..|keys| + 1] == keys + [k];
    assert q[..|keys|] == q[..|keys| + 1][..|keys|];
    assert (keys + [k])[|keys|] == k;
  }

  lemma PrefixFreeConcat(head: seq<Node>, tail: seq<Node>, d: nat)
    requires PrefixFree(head) && PrefixFree(tail)
    requires forall n :: n in head ==> d < |n.keys|
    requires forall n :: n in tail ==> d < |n.keys|
    requires forall x, y :: x in head && y in tail ==> x.keys[d] != y.keys[d]
    ensures PrefixFree(head + tail)
  {
    var ns := head + tail;
    forall i, j | 0 <= i < |ns| && 0 <= j < |ns| && i != j
      ensures !IsPrefixOf(ns[i].keys, ns[j].keys)
    {
      if i < |head| && j >= |head| {
        assert ns[i] in head && ns[j] in tail;
        DifferentKeyNotPrefix(ns[i].keys, ns[j].keys, d);
      } else if i >= |head| && j < |head| {
        assert ns[i] in tail && ns[j] in head;
        DifferentKeyNotPrefix(ns[i].keys, ns[j].keys, d);
      } else if i < |head| {
        assert ns[i] == head[i] && ns[j] == head[j];
      } else {
        assert ns[i] == tail[i - |head|] && ns[j] == tail[j - |head|];
      }
    }
  }

  lemma DifferentKeyNotPrefix(p: seq<string>, q: seq<string>, d: nat)
    requires d < |p| && d < |q| && p[d] != q[d]
    ensures !IsPrefixOf(p, q)
  {
    if |p| <= |q| {
      assert q[..|p|][d] == q[d];
    }
  }

  /**
   * Every diverging leaf gets its node: together with ConfigDiff's
   * postcondition, a node is produced exactly where `Diverges` holds.
   */
  lemma {:induction false} ConfigDiffComplete(b: Slot, c: Slot, a: Slot, keys: seq<string>,
                                              p: seq<string>, final: Slot, conflict: bool)
    requires ConfigDiff(b, c, a, keys).Ok?
    requires Diverges(b, c, a, p, final, conflict)
    ensures Node(keys + p, final, conflict) in ConfigDiff(b, c, a, keys).value
    decreases |p|
  {
    if p == [] {
      assert keys + p == keys;
    } else {
      var cm, am, k := c.v.members, a.v.members, p[0];
      var ks := UnionKeys(cm, am);
      assert k in ks by {
        assert !SlotEq(Lookup(cm, k), Lookup(am, k));
      }
      assert ConfigDiff(b, c, a, keys) == DiffMembers(b, cm, am, keys, ks);
      DiffMembersIncludes(b, cm, am, keys, ks, k);
      ConfigDiffComplete(Member(b, k), Lookup(cm, k), Lookup(am, k), keys + [k], p[1..], final, conflict);
      SnocCons(keys, p);
    }
  }

  lemma SnocCons<T>(s: seq<T>, p: seq<T>)
    requires p != []
    ensures s + [p[0]] + p[1..] == s + p
  {
    ConsSplit(p);
  }

  /** The nodes of each visited key are among the nodes of the loop. */
  lemma {:induction false} DiffMembersIncludes(b: Slot, cm: seq<(string, Json)>, am: seq<(string, Json)>,
                                               keys: seq<string>, ks: seq<string>, k: string)
    requires k in ks
    requires DiffMembers(b, cm, am, keys, ks).Ok?
    ensures ConfigDiff(Member(b, k), Lookup(cm, k), Lookup(am, k), keys + [k]).Ok?
    ensures forall n :: n in ConfigDiff(Member(b, k), Lookup(cm, k), Lookup(am, k), keys + [k]).value ==>
      n in DiffMembers(b, cm, am, keys, ks).value
    decreases |ks|
  {
    if ks[0] != k {
      DiffMembersIncludes(b, cm, am, keys, ks[1..], k);
    }
  }

  /** A diverging path ends at the leaf values found by following it. */
  lemma {:induction false} DivergesAtPath(b: Slot, c: Slot, a: Slot, p: seq<string>, final: Slot, conflict: bool)
    requires Diverges(b, c, a, p, final, conflict)
    ensures !SlotEq(SlotAt(c, p), SlotAt(a, p))
    ensures !(IsObject(SlotAt(c, p)) && IsObject(SlotAt(a, p)))
    ensures (final, conflict) == LeafRule(SlotAt(b, p), SlotAt(c, p), SlotAt(a, p))
    decreases |p|
  {
    if p != [] {
      DivergesAtPath(Member(b, p[0]), Member(c, p[0]), Member(a, p[0]), p[1..], final, conflict);
    }
  }

  /**
   * A conflict sits at a key path where before differs from both current and
   * after, and its final value is after's value there.
   */
  lemma ConflictTakesAfter(b: Slot, c: Slot, a: Slot, keys: seq<string>, n: Node)
    requires ConfigDiff(b, c, a, keys).Ok? && n in ConfigDiff(b, c, a, keys).value
    ensures IsPrefixOf(keys, n.keys)
    ensures var p := n.keys[|keys|..];
      && !SlotEq(SlotAt(c, p), SlotAt(a, p))
      && (n.isConflict <==> !SlotEq(SlotAt(b, p), SlotAt(c, p)) && !SlotEq(SlotAt(b, p), SlotAt(a, p)))
      && (n.isConflict ==> n.final == SlotAt(a, p))
  {
    ConfigDiffSound(b, c, a, keys);
    DivergesAtPath(b, c, a, n.keys[|keys|..], n.final, n.isConflict);
  }

  /**
   * A non-conflicting node takes after's value where the user left before's
   * value alone, and keeps current's value where the template left it alone.
   */
  lemma NonConflictTakesChangedSide(b: Slot, c: Slot, a: Slot, keys: seq<string>, n: Node)
    requires ConfigDiff(b, c, a, keys).Ok? && n in ConfigDiff(b, c, a, keys).value
    requires !n.isConflict
    ensures IsPrefixOf(keys, n.keys)
    ensures var p := n.keys[|keys|..];
      if SlotEq(SlotAt(b, p), SlotAt(c, p)) then n.final == SlotAt(a, p)
      else SlotEq(SlotAt(b, p), SlotAt(a, p)) && n.final == SlotAt(c, p)
  {
    ConfigDiffSound(b, c, a, keys);
    DivergesAtPath(b, c, a, n.keys[|keys|..], n.final, n.isConflict);
  }

  /** Identical current and after documents produce no nodes, whatever before is. */
  lemma UnchangedTemplateNoNodes(b: Slot, c: Slot, keys: seq<string>)
    requires c.Present? ==> WellFormed(c.v)
    ensures ConfigDiff(b, c, c, keys) == Ok([])
  {
    SlotEqReflexive(c);
  }

  /** The keys of `s` that are not in `excluded`, in order. */
  function Without(s: seq<string>, excluded: seq<string>): (r: seq<string>)
    ensures forall x :: x in r <==> x in s && x !in excluded
    decreases |s|
  {
    if s == [] then []
    else
      assert s == s[..|s| - 1] + [s[|s| - 1]];
      Without(s[..|s| - 1], excluded) + (if s[|s| - 1] in excluded then [] else [s[|s| - 1]])
  }

  /** Children are visited in current's key order, then after's remaining keys in after's order. */
  lemma UnionKeysOrder(cm: seq<(string, Json)>, am: seq<(string, Json)>)
    requires UniqueKeys(cm) && UniqueKeys(am)
    ensures UnionKeys(cm, am) == Keys(cm) + Without(Keys(am), Keys(cm))
  {
    DedupAppend(Keys(cm), Keys(am));
  }

  lemma {:induction false} DedupAppend(x: seq<string>, y: seq<string>)
    requires NoDup(x) && NoDup(y)
    ensures Dedup(x + y) == x + Without(y, x)
    decreases |y|
  {
    if y == [] {
      assert x + y == x;
      DedupNoDup(x);
    } else {
      var y', e := y[..|y| - 1], y[|y| - 1];
      assert (x + y)[..|x + y| - 1] == x + y';
      assert (x + y)[|x + y| - 1] == e;
      assert e !in y' by {
        assert forall i :: 0 <= i < |y'| ==> y'[i] == y[i];
      }
      DedupAppend(x, y');
    }
  }

  lemma {:induction false} DedupNoDup(x: seq<string>)
    requires NoDup(x)
    ensures Dedup(x) == x
    decreases |x|
  {
    if x != [] {
      var x' := x[..|x| - 1];
      assert x[|x| - 1] !in x' by {
        assert forall i :: 0 <= i < |x'| ==> x'[i] == x[i];
      }
      DedupNoDup(x');
      assert x == x' + [x[|x| - 1]];
    }
  }

  // Unfolding steps used by the worked examples below.

  lemma DiffMembersCons(before: Slot, cm: seq<(string, Json)>, am: seq<(string, Json)>, keys: seq<string>,
                        ks: seq<string>, head: seq<Node>, tail: seq<Node>)
    requires ks != [] && !Nullish(before)
    requires ConfigDiff(Member(before, ks[0]), Lookup(cm, ks[0]), Lookup(am, ks[0]), keys + [ks[0]]) == Ok(head)
    requires DiffMembers(before, cm, am, keys, ks[1..]) == Ok(tail)
    ensures DiffMembers(before, cm, am, keys, ks) == Ok(head + tail)
  {
  }

  lemma LeafNode(b: Slot, c: Slot, a: Slot, keys: seq<string>)
    requires !SlotEq(c, a) && !(IsObject(c) && IsObject(a))
    ensures ConfigDiff(b, c, a, keys) == Ok([Node(keys, LeafRule(b, c, a).0, LeafRule(b, c, a).1)])
  {
  }

  lemma NestedLastChild()
    ensures
      var bar := JStr("bar");
      DiffMembers(Present(JObj([("foo", bar)])), [("foo1", bar)], [("foo", bar), ("foo2", bar)], ["a"], ["foo2"])
      == Ok([Node(["a", "foo2"], Present(bar), false)])
  {
    var bar := JStr("bar");
    var cm, am := [("foo1", bar)], [("foo", bar), ("foo2", bar)];
    var x := Present(JObj([("foo", bar)]));
    var a: seq<string> := ["a"];
    var n2 := Node(["a", "foo2"], Present(bar), false);
    var s1: seq<string> := ["foo2"];
    assert ConfigDiff(Member(x, "foo2"), Lookup(cm, "foo2"), Lookup(am, "foo2"), a + ["foo2"]) == Ok([n2]) by {
      assert Member(x, "foo2") == Absent && Lookup(cm, "foo2") == Absent && Lookup(am, "foo2") == Present(bar);
      assert a + ["foo2"] == ["a", "foo2"];
      LeafNode(Absent, Absent, Present(bar), ["a", "foo2"]);
    }
    assert s1[1..] == [];
    DiffMembersCons(x, cm, am, a, s1, [n2], []);
    assert [n2] + [] == [n2];
  }

  lemma NestedMiddleChild()
    ensures
      var bar := JStr("bar");
      DiffMembers(Present(JObj([("foo", bar)])), [("foo1", bar)], [("foo", bar), ("foo2", bar)], ["a"], ["foo", "foo2"])
      == Ok([Node(["a", "foo"], Absent, false), Node(["a", "foo2"], Present(bar), false)])
  {
    var bar := JStr("bar");
    var cm, am := [("foo1", bar)], [("foo", bar), ("foo2", bar)];
    var x := Present(JObj([("foo", bar)]));
    var a: seq<string> := ["a"];
    var n1, n2 := Node(["a", "foo"], Absent, false), Node(["a", "foo2"], Present(bar), false);
    var s2: seq<string> := ["foo", "foo2"];
    NestedLastChild();
    assert ConfigDiff(Member(x, "foo"), Lookup(cm, "foo"), Lookup(am, "foo"), a + ["foo"]) == Ok([n1]) by {
      assert Member(x, "foo") == Present(bar) && Lookup(cm, "foo") == Absent && Lookup(am, "foo") == Present(bar);
      assert a + ["foo"] == ["a", "foo"];
      LeafNode(Present(bar), Absent, Present(bar), ["a", "foo"]);
    }
    assert s2[1..] == ["foo2"];
    DiffMembersCons(x, cm, am, a, s2, [n1], [n2]);
    assert [n1] + [n2] == [n1, n2];
  }

  lemma NestedChildren()
    ensures
      var bar := JStr("bar");
      var cm, am := [("foo1", bar)], [("foo", bar), ("foo2", bar)];
      DiffMembers(Present(JObj([("foo", bar)])), cm, am, ["a"], ["foo1", "foo", "foo2"])
      == Ok([Node(["a", "foo1"], Present(bar), false),
             Node(["a", "foo"], Absent, false),
             Node(["a", "foo2"], Present(bar), false)])
  {
    var bar := JStr("bar");
    var cm, am := [("foo1", bar)], [("foo", bar), ("foo2", bar)];
    var x := Present(JObj([("foo", bar)]));
    var a: seq<string> := ["a"];
    var n0, n1, n2 := Node(["a", "foo1"], Present(bar), false), Node(["a", "foo"], Absent, false), Node(["a", "foo2"], Present(bar), false);
    var s3: seq<string> := ["foo1", "foo", "foo2"];
    NestedMiddleChild();
    assert ConfigDiff(Member(x, "foo1"), Lookup(cm, "foo1"), Lookup(am, "foo1"), a + ["foo1"]) == Ok([n0]) by {
      assert Member(x, "foo1") == Absent && Lookup(cm, "foo1") == Present(bar) && Lookup(am, "foo1") == Absent;
      assert a + ["foo1"] == ["a", "foo1"];
      LeafNode(Absent, Present(bar), Absent, ["a", "foo1"]);
    }
    assert s3[1..] == ["foo", "foo2"];
    DiffMembersCons(x, cm, am, a, s3, [n0], [n1, n2]);
    assert [n0] + [n1, n2] == [n0, n1, n2];
  }

  lemma ObjectNode(b: Slot, c: Slot, a: Slot, keys: seq<string>)
    requires !SlotEq(c, a) && IsObject(c) && IsObject(a)
    ensures ConfigDiff(b, c, a, keys) == DiffMembers(b, c.v.members, a.v.members, keys, UnionKeys(c.v.members, a.v.members))
  {
  }

  lemma UnionKeysSingle(k: string, x: Json, y: Json)
    ensures UnionKeys([(k, x)], [(k, y)]) == [k]
  {
    var kk := [k, k];
    assert Keys([(k, x)]) + Keys([(k, y)]) == kk;
    assert kk[..1] == [k] && [k][..0] == [];
    assert Dedup([k]) == [k];
  }

  lemma NestedKeys()
    ensures UnionKeys([("foo1", JStr("bar"))], [("foo", JStr("bar")), ("foo2", JStr("bar"))]) == ["foo1", "foo", "foo2"]
  {
    var bar := JStr("bar");
    var cm, am := [("foo1", bar)], [("foo", bar), ("foo2", bar)];
    var ks := ["foo1", "foo", "foo2"];
    assert Keys(cm) + Keys(am) == ks;
    assert ks[..1] == ["foo1"] && ks[..2] == ["foo1", "foo"] && ks[..0] == [];
    assert Dedup(ks[..1]) == ks[..1];
    assert Dedup(ks[..2]) == ks[..2];
  }

  lemma NestedDiffer()
    ensures !SlotEq(Present(JObj([("foo1", JStr("bar"))])), Present(JObj([("foo", JStr("bar")), ("foo2", JStr("bar"))])))
    ensures !SlotEq(Present(JObj([("a", JObj([("foo1", JStr("bar"))]))])),
                    Present(JObj([("a", JObj([("foo", JStr("bar")), ("foo2", JStr("bar"))]))])))
  {
    var bar := JStr("bar");
    var cm, am := [("foo1", bar)], [("foo", bar), ("foo2", bar)];
    var c, a := [("a", JObj(cm))], [("a", JObj(am))];
    assert Keys(am) == ["foo", "foo2"] && Keys(cm) == ["foo1"];
    assert "foo" in Keys(am) && "foo" !in Keys(cm);
    assert !JsonEq(JObj(cm), JObj(am));
    assert Lookup(a, "a") == Present(JObj(am));
    assert !MemberEq(c[0], a);
  }

  lemma NestedInner()
    ensures
      var bar := JStr("bar");
      ConfigDiff(Present(JObj([("foo", bar)])), Present(JObj([("foo1", bar)])),
                 Present(JObj([("foo", bar), ("foo2", bar)])), ["a"])
      == Ok([Node(["a", "foo1"], Present(bar), false),
             Node(["a", "foo"], Absent, false),
             Node(["a", "foo2"], Present(bar), false)])
  {
    var bar := JStr("bar");
    var cm, am := [("foo1", bar)], [("foo", bar), ("foo2", bar)];
    NestedKeys();
    NestedDiffer();
    NestedChildren();
    ObjectNode(Present(JObj([("foo", bar)])), Present(JObj(cm)), Present(JObj(am)), ["a"]);
  }

  /** The nested-object example: visited in current's key order, then after-only keys. */
  lemma NestedExample()
    ensures
      var bar := JStr("bar");
      ConfigDiff(Present(JObj([("a", JObj([("foo", bar)]))])),
                 Present(JObj([("a", JObj([("foo1", bar)]))])),
                 Present(JObj([("a", JObj([("foo", bar), ("foo2", bar)]))])), [])
      == Ok([Node(["a", "foo1"], Present(bar), false),
             Node(["a", "foo"], Absent, false),
             Node(["a", "foo2"], Present(bar), false)])
  {
    var bar := JStr("bar");
    var bm, cm, am := [("foo", bar)], [("foo1", bar)], [("foo", bar), ("foo2", bar)];
    var b, c, a := [("a", JObj(bm))], [("a", JObj(cm))], [("a", JObj(am))];
    NestedDiffer();
    UnionKeysSingle("a", JObj(cm), JObj(am));
    ObjectNode(Present(JObj(b)), Present(JObj(c)), Present(JObj(a)), []);
    var e: seq<string> := [];
    var one: seq<string> := ["a"];
    assert e + one == one && one[1..] == [];
    assert Member(Present(JObj(b)), "a") == Present(JObj(bm)) && Lookup(c, "a") == Present(JObj(cm)) && Lookup(a, "a") == Present(JObj(am));
    var nodes := [Node(["a", "foo1"], Present(bar), false), Node(["a", "foo"], Absent, false), Node(["a", "foo2"], Present(bar), false)];
    assert nodes + [] == nodes;
    NestedInner();
    DiffMembersCons(Present(JObj(b)), c, a, [], one, nodes, []);
  }

  lemma ConflictKeys()
    ensures UnionKeys([("foo1", JStr("bar2")), ("foo2", JStr("bar2"))], [("foo1", JStr("bar3")), ("foo2", JStr("bar2"))])
      == ["foo1", "foo2"]
  {
    var cm := [("foo1", JStr("bar2")), ("foo2", JStr("bar2"))];
    var am := [("foo1", JStr("bar3")), ("foo2", JStr("bar2"))];
    var ks := ["foo1", "foo2", "foo1", "foo2"];
    assert Keys(cm) + Keys(am) == ks;
    assert ks[..0] == [] && ks[..1] == ["foo1"] && ks[..2] == ["foo1", "foo2"] && ks[..3] == ["foo1", "foo2", "foo1"];
    assert Dedup(ks[..1]) == ks[..1];
    assert Dedup(ks[..2]) == ks[..2];
    assert ks[..3][..2] == ks[..2] && ks[..2][..1] == ks[..1] && ks[..4] == ks;
    assert Dedup(ks[..3]) == ks[..2];
  }

  lemma ConflictDiffer()
    ensures !SlotEq(Present(JObj([("foo1", JStr("bar2")), ("foo2", JStr("bar2"))])),
                    Present(JObj([("foo1", JStr("bar3")), ("foo2", JStr("bar2"))])))
    ensures !SlotEq(Present(JObj([("a", JObj([("foo1", JStr("bar2")), ("foo2", JStr("bar2"))]))])),
                    Present(JObj([("a", JObj([("foo1", JStr("bar3")), ("foo2", JStr("bar2"))]))])))
  {
    var cm := [("foo1", JStr("bar2")), ("foo2", JStr("bar2"))];
    var am := [("foo1", JStr("bar3")), ("foo2", JStr("bar2"))];
    var c, a := [("a", JObj(cm))], [("a", JObj(am))];
    assert Lookup(am, "foo1") == Present(JStr("bar3"));
    assert !MemberEq(cm[0], am);
    assert !JsonEq(JObj(cm), JObj(am));
    assert Lookup(a, "a") == Present(JObj(am));
    assert !MemberEq(c[0], a);
  }

  lemma ConflictChildren()
    ensures
      var cm := [("foo1", JStr("bar2")), ("foo2", JStr("bar2"))];
      var am := [("foo1", JStr("bar3")), ("foo2", JStr("bar2"))];
      DiffMembers(Present(JObj([("foo", JStr("bar1"))])), cm, am, ["a"], ["foo1", "foo2"])
      == Ok([Node(["a", "foo1"], Present(JStr("bar3")), true)])
  {
    var cm := [("foo1", JStr("bar2")), ("foo2", JStr("bar2"))];
    var am := [("foo1", JStr("bar3")), ("foo2", JStr("bar2"))];
    var x := Present(JObj([("foo", JStr("bar1"))]));
    var ks: seq<string> := ["foo1", "foo2"];
    var s1: seq<string> := ["foo2"];
    assert ks[1..] == s1 && s1[1..] == [];
    assert Lookup(cm, "foo1") == Present(JStr("bar2")) && Lookup(am, "foo1") == Present(JStr("bar3"));
    assert Lookup(cm, "foo2") == Present(JStr("bar2")) && Lookup(am, "foo2") == Present(JStr("bar2"));
    assert Member(x, "foo1") == Absent;
    var a: seq<string> := ["a"];
    assert a + ["foo1"] == ["a", "foo1"] && a + ["foo2"] == ["a", "foo2"];
    assert SlotEq(Lookup(cm, "foo2"), Lookup(am, "foo2"));
    assert LeafRule(Absent, Present(JStr("bar2")), Present(JStr("bar3"))) == (Present(JStr("bar3")), true);
    LeafNode(Absent, Present(JStr("bar2")), Present(JStr("bar3")), ["a", "foo1"]);
    var n := [Node(["a", "foo1"], Present(JStr("bar3")), true)];
    assert n + [] == n;
    var emp: seq<Node> := [];
    assert emp + emp == emp;
    DiffMembersCons(x, cm, am, ["a"], s1, emp, emp);
    DiffMembersCons(x, cm, am, ["a"], ks, n, []);
  }

  /** A value changed on both sides is one conflict at the deepest key, taking after's value; the equal sibling adds nothing. */
  lemma ConflictExample()
    ensures
      ConfigDiff(Present(JObj([("a", JObj([("foo", JStr("bar1"))]))])),
                 Present(JObj([("a", JObj([("foo1", JStr("bar2")), ("foo2", JStr("bar2"))]))])),
                 Present(JObj([("a", JObj([("foo1", JStr("bar3")), ("foo2", JStr("bar2"))]))])), [])
      == Ok([Node(["a", "foo1"], Present(JStr("bar3")), true)])
  {
    var bm := [("foo", JStr("bar1"))];
    var cm := [("foo1", JStr("bar2")), ("foo2", JStr("bar2"))];
    var am := [("foo1", JStr("bar3")), ("foo2", JStr("bar2"))];
    var b, c, a := [("a", JObj(bm))], [("a", JObj(cm))], [("a", JObj(am))];
    ConflictKeys();
    ConflictDiffer();
    ConflictChildren();
    var x := Present(JObj(bm));
    ObjectNode(x, Present(JObj(cm)), Present(JObj(am)), ["a"]);
    UnionKeysSingle("a", JObj(cm), JObj(am));
    ObjectNode(Present(JObj(b)), Present(JObj(c)), Present(JObj(a)), []);
    var e: seq<string> := [];
    var one: seq<string> := ["a"];
    assert e + one == one && one[1..] == [];
    assert Member(Present(JObj(b)), "a") == x && Lookup(c, "a") == Present(JObj(cm)) && Lookup(a, "a") == Present(JObj(am));
    var nodes := [Node(["a", "foo1"], Present(JStr("bar3")), true)];
    assert nodes + [] == nodes;
    DiffMembersCons(Present(JObj(b)), c, a, [], one, nodes, []);
  }

  lemma MissingBeforeInner()
    ensures ConfigDiff(Absent, Present(JObj([("x", JNum(1))])), Present(JObj([("x", JNum(2))])), ["a"])
      == Err(UnreadableBefore(["a"]))
  {
    var cm, am := [("x", JNum(1))], [("x", JNum(2))];
    assert !SlotEq(Present(JObj(cm)), Present(JObj(am))) by {
      assert !MemberEq(cm[0], am);
    }
    UnionKeysSingle("x", JNum(1), JNum(2));
    ObjectNode(Absent, Present(JObj(cm)), Present(JObj(am)), ["a"]);
  }

  /** Recursing into a key with no object in before reads a property of undefined. */
  lemma MissingBeforeExample()
    ensures ConfigDiff(Present(JObj([])),
                       Present(JObj([("a", JObj([("x", JNum(1))]))])),
                       Present(JObj([("a", JObj([("x", JNum(2))]))])), [])
      == Err(UnreadableBefore(["a"]))
  {
    var cm, am := [("x", JNum(1))], [("x", JNum(2))];
    var c, a := [("a", JObj(cm))], [("a", JObj(am))];
    MissingDiffer();
    UnionKeysSingle("a", JObj(cm), JObj(am));
    ObjectNode(Present(JObj([])), Present(JObj(c)), Present(JObj(a)), []);
    MissingBeforeMember();
  }

  lemma MissingDiffer()
    ensures !SlotEq(Present(JObj([("a", JObj([("x", JNum(1))]))])), Present(JObj([("a", JObj([("x", JNum(2))]))])))
  {
    var cm, am := [("x", JNum(1))], [("x", JNum(2))];
    var c, a := [("a", JObj(cm))], [("a", JObj(am))];
    assert !JsonEq(JObj(cm), JObj(am)) by {
      assert !MemberEq(cm[0], am);
    }
    assert Lookup(a, "a") == Present(JObj(am));
    assert !MemberEq(c[0], a);
  }

  lemma MissingBeforeMember()
    ensures DiffMembers(Present(JObj([])), [("a", JObj([("x", JNum(1))]))], [("a", JObj([("x", JNum(2))]))], [], ["a"])
      == Err(UnreadableBefore(["a"]))
  {
    var cm, am := [("x", JNum(1))], [("x", JNum(2))];
    var c, a := [("a", JObj(cm))], [("a", JObj(am))];
    var e: seq<string> := [];
    assert e + ["a"] == ["a"];
    assert Member(Present(JObj([])), "a") == Absent;
    assert Lookup(c, "a") == Present(JObj(cm)) && Lookup(a, "a") == Present(JObj(am));
    MissingBeforeInner();
  }

  /** An array is a leaf: one node at the root path, here taking current's changed array. */
  lemma ArrayLeafExample()
    ensures ConfigDiff(Present(JArr([JStr("a")])), Present(JArr([JStr("b")])), Present(JArr([JStr("a")])), [])
      == Ok([Node([], Present(JArr([JStr("b")])), false)])
  {
    var x, y := Present(JArr([JStr("a")])), Present(JArr([JStr("b")]));
    assert !SlotEq(y, x) by {
      assert y.v.items[0] == JStr("b") && x.v.items[0] == JStr("a");
      assert !JsonEq(JStr("b"), JStr("a"));
    }
    assert SlotEq(x, x) by {
      assert JsonEq(JStr("a"), JStr("a"));
    }
    LeafNode(x, y, x, []);
    assert LeafRule(x, y, x) == (y, false);
  }

  /** Values of different types are a leaf: changed on both sides, a conflict taking after's value. */
  lemma MismatchLeafExample()
    ensures ConfigDiff(Present(JStr("a")), Present(JStr("b")), Present(JObj([("foo", JStr("bar"))])), [])
      == Ok([Node([], Present(JObj([("foo", JStr("bar"))])), true)])
  {
    var b, c, a := Present(JStr("a")), Present(JStr("b")), Present(JObj([("foo", JStr("bar"))]));
    assert !SlotEq(c, a) && !SlotEq(b, c) && !SlotEq(b, a);
    LeafNode(b, c, a, []);
    assert LeafRule(b, c, a) == (a, true);
  }

  // ---------------------------------------------------------------------
  // applyChanges: replaying nodes onto two copies of a base document
  // ---------------------------------------------------------------------

  /** JavaScript raises a TypeError reading a property of undefined or null, or writing one on a non-object. */
  datatype ApplyError = TypeError(keys: seq<string>)

  /** `keys[keys.length - 1]`; for an empty path the index is -1 and the property key becomes "undefined". */
  function LastKey(keys: seq<string>): (k: string)
    ensures keys != [] ==> k == keys[|keys| - 1]
  {
    if keys == [] then "undefined" else keys[|keys| - 1]
  }

  /** The keys the parent walk follows: all but the last. */
  function ParentPath(keys: seq<string>): (p: seq<string>)
    ensures keys != [] ==> p + [LastKey(keys)] == keys
    ensures |p| == if keys == [] then 0 else |keys| - 1
  {
    if keys == [] then [] else keys[..|keys| - 1]
  }

  /** Sets member `k` (in place when present, appended otherwise), or deletes it when `v` is absent. */
  function Assign(m: seq<(string, Json)>, k: string, v: Slot): (r: seq<(string, Json)>)
    ensures Lookup(r, k) == v
    ensures forall k' :: k' != k ==> Lookup(r, k') == Lookup(m, k')
  {
    if m == [] then (if v.Present? then [(k, v.v)] else [])
    else if m[0].0 == k then (if v.Present? then [(k, v.v)] + Delete(m[1..], k) else Delete(m[1..], k))
    else [m[0]] + Assign(m[1..], k, v)
  }

  /** The members of `m` other than `k`, in order. */
  function Delete(m: seq<(string, Json)>, k: string): (r: seq<(string, Json)>)
    ensures Lookup(r, k) == Absent
    ensures forall k' :: k' != k ==> Lookup(r, k') == Lookup(m, k')
  {
    if m == [] then []
    else if m[0].0 == k then Delete(m[1..], k)
    else [m[0]] + Delete(m[1..], k)
  }

  /**
   * The parent walk `parent = parent[key]`: fails exactly when it reads a
   * property of undefined or null, and otherwise ends where SlotAt does.
   */
  function Walk(s: Slot, path: seq<string>, keys: seq<string>): (r: Result<Slot, ApplyError>)
    ensures r.Ok? ==> r.value == SlotAt(s, path)
    ensures r.Err? ==> r.error == TypeError(keys)
    decreases |path|
  {
    if path == [] then Ok(s)
    else if Nullish(s) then Err(TypeError(keys))
    else Walk(Member(s, path[0]), path[1..], keys)
  }

  predicate Nullish(s: Slot) {
    s.Absent? || s.v.JNull?
  }

  /**
   * Writes `v` at member `last` of the object reached by `path` and returns
   * the new root; fails when that object, or any object on the way to it, is
   * missing.
   */
  function Update(s: Slot, path: seq<string>, last: string, v: Slot, keys: seq<string>): (r: Result<Slot, ApplyError>)
    ensures r.Ok? ==> IsObject(r.value) && SlotAt(r.value, path + [last]) == v
    ensures r.Err? ==> r.error == TypeError(keys)
    decreases |path|
  {
    if !IsObject(s) then Err(TypeError(keys))
    else if path == [] then
      Ok(Present(JObj(Assign(s.v.members, last, v))))
    else
      var child := Update(Member(s, path[0]), path[1..], last, v, keys);
      assert (path + [last])[1..] == path[1..] + [last];
      if child.Err? then Err(child.error)
      else Ok(Present(JObj(Assign(s.v.members, path[0], child.value))))
  }

  /** One iteration of the loop: both walks, then the write to both copies, or to after only for a conflict. */
  function ApplyOne(current: Slot, after: Slot, n: Node): Result<(Slot, Slot), ApplyError> {
    var parent, last := ParentPath(n.keys), LastKey(n.keys);
    var _ :- Walk(current, parent, n.keys);
    var _ :- Walk(after, parent, n.keys);
    if !n.isConflict then
      var current' :- Update(current, parent, last, n.final, n.keys);
      var after' :- Update(after, parent, last, n.final, n.keys);
      Ok((current', after'))
    else
      var after' :- Update(after, parent, last, n.final, n.keys);
      Ok((current, after'))
  }

  /** The loop over `changes`, starting from two copies of `base`. */
  function ApplyAll(base: Slot, changes: seq<Node>): Result<(Slot, Slot), ApplyError>
    decreases |changes|
  {
    if changes == [] then Ok((base, base))
    else
      var (current, after) :- ApplyAll(base, changes[..|changes| - 1]);
      ApplyOne(current, after, changes[|changes| - 1])
  }

  lemma ApplyAllStep(base: Slot, changes: seq<Node>, i: nat, current: Slot, after: Slot)
    requires i < |changes| && ApplyAll(base, changes[..i]) == Ok((current, after))
    ensures ApplyAll(base, changes[..i + 1]) == ApplyOne(current, after, changes[i])
  {
    assert changes[..i + 1][..i] == changes[..i];
  }

  /** The first TypeError is final: later nodes are never applied. */
  lemma {:induction false} ApplyAllErrPersists(base: Slot, changes: seq<Node>, j: nat)
    requires j <= |changes| && ApplyAll(base, changes[..j]).Err?
    ensures ApplyAll(base, changes) == ApplyAll(base, changes[..j])
    decreases |changes| - j
  {
    if j < |changes| {
      assert changes[..j + 1][..j] == changes[..j];
      ApplyAllErrPersists(base, changes, j + 1);
    } else {
      assert changes[..j] == changes;
    }
  }

  /**
   * applyChanges: both copies start as `base` and each node is applied in
   * turn; the first TypeError ends the run.
   */
  method ApplyChanges(base: Slot, changes: seq<Node>) returns (r: Result<(Slot, Slot), ApplyError>)
    ensures r == ApplyAll(base, changes)
  {
    var current, after := base, base;
    for i := 0 to |changes|
      invariant ApplyAll(base, changes[..i]) == Ok((current, after))
    {
      var change := changes[i];
      ApplyAllStep(base, changes, i, current, after);
      var parent, last := ParentPath(change.keys), LastKey(change.keys);
      var currentParent := Walk(current, parent, change.keys);
      var afterParent := Walk(after, parent, change.keys);
      if currentParent.Err? {
        r := Err(currentParent.error);
        ApplyAllErrPersists(base, changes, i + 1);
        return;
      }
      if afterParent.Err? {
        r := Err(afterParent.error);
        ApplyAllErrPersists(base, changes, i + 1);
        return;
      }
      var after' := Update(after, parent, last, change.final, change.keys);
      if !change.isConflict {
        var current' := Update(current, parent, last, change.final, change.keys);
        if current'.Err? {
          r := Err(current'.error);
          ApplyAllErrPersists(base, changes, i + 1);
          return;
        }
        current := current'.value;
      }
      if after'.Err? {
        r := Err(after'.error);
        ApplyAllErrPersists(base, changes, i + 1);
        return;
      }
      after := after'.value;
    }
    assert changes[..|changes|] == changes;
    r := Ok((current, after));
  }

  /** The key path a node writes at: its own keys, or ["undefined"] for the empty path. */
  function Target(keys: seq<string>): (t: seq<string>)
    ensures keys != [] ==> t == keys
    ensures keys == [] ==> t == ["undefined"]
  {
    ParentPath(keys) + [LastKey(keys)]
  }

  /** A write at `path + [last]` leaves every path unrelated to it by prefix unchanged. */
  lemma {:induction false} UpdateFrame(s: Slot, path: seq<string>, last: string, v: Slot, keys: seq<string>, q: seq<string>)
    requires Update(s, path, last, v, keys).Ok?
    requires !IsPrefixOf(q, path + [last]) && !IsPrefixOf(path + [last], q)
    ensures SlotAt(Update(s, path, last, v, keys).value, q) == SlotAt(s, q)
    decreases |path|
  {
    var t := path + [last];
    var r := Update(s, path, last, v, keys).value;
    assert q != [] by {
      assert t[..0] == [];
    }
    var k := if path == [] then last else path[0];
    assert t[0] == k;
    assert Member(r, k) == (if path == [] then v else Update(Member(s, k), path[1..], last, v, keys).value);
    if q[0] == k {
      assert path != [] by {
        assert IsPrefixOf([q[0]], q);
      }
      var q', t' := q[1..], path[1..] + [last];
      assert !IsPrefixOf(q', t') && !IsPrefixOf(t', q') by {
        ConsSnoc(path, last);
        ConsSplit(q);
        ConsPrefix(k, q', t');
        ConsPrefix(k, t', q');
      }
      calc {
        SlotAt(r, q);
        SlotAt(Member(r, k), q');
        { UpdateFrame(Member(s, k), path[1..], last, v, keys, q'); }
        SlotAt(Member(s, k), q');
        SlotAt(s, q);
      }
    } else {
      assert Member(r, q[0]) == Member(s, q[0]);
    }
  }

  lemma ConsSnoc<T>(p: seq<T>, x: T)
    requires p != []
    ensures p + [x] == [p[0]] + (p[1..] + [x])
  {
  }

  lemma ConsSplit<T>(q: seq<T>)
    requires q != []
    ensures q == [q[0]] + q[1..]
  {
  }

  lemma ConsPrefix<T>(x: T, p: seq<T>, s: seq<T>)
    ensures IsPrefixOf([x] + p, [x] + s) <==> IsPrefixOf(p, s)
  {
    if |p| <= |s| {
      assert ([x] + s)[..|p| + 1] == [x] + s[..|p|];
      assert ([x] + s[..|p|])[1..] == s[..|p|] && ([x] + p)[1..] == p;
    }
  }

  /**
   * One node: a non-conflict writes `final` (or deletes) at its path in both
   * copies; a conflict writes only after and leaves current as it was.
   */
  lemma ApplyOneTarget(current: Slot, after: Slot, n: Node)
    requires ApplyOne(current, after, n).Ok?
    ensures var (current', after') := ApplyOne(current, after, n).value;
      && SlotAt(after', Target(n.keys)) == n.final
      && (n.isConflict ==> current' == current)
      && (!n.isConflict ==> SlotAt(current', Target(n.keys)) == n.final)
  {
    ApplyOneWrites(current, after, n);
    assert Target(n.keys) == ParentPath(n.keys) + [LastKey(n.keys)];
  }

  /** Paths unrelated to the node's path keep their values in both copies. */
  lemma ApplyOneFrame(current: Slot, after: Slot, n: Node, q: seq<string>)
    requires ApplyOne(current, after, n).Ok?
    requires !IsPrefixOf(q, Target(n.keys)) && !IsPrefixOf(Target(n.keys), q)
    ensures var (current', after') := ApplyOne(current, after, n).value;
      SlotAt(current', q) == SlotAt(current, q) && SlotAt(after', q) == SlotAt(after, q)
  {
    UpdateFrame(after, ParentPath(n.keys), LastKey(n.keys), n.final, n.keys, q);
    if !n.isConflict {
      UpdateFrame(current, ParentPath(n.keys), LastKey(n.keys), n.final, n.keys, q);
    }
  }

  lemma ApplyOneWrites(current: Slot, after: Slot, n: Node)
    requires ApplyOne(current, after, n).Ok?
    ensures var u := Update(after, ParentPath(n.keys), LastKey(n.keys), n.final, n.keys);
      u.Ok? && ApplyOne(current, after, n).value.1 == u.value
    ensures var u := Update(current, ParentPath(n.keys), LastKey(n.keys), n.final, n.keys);
      ApplyOne(current, after, n).value.0 == if n.isConflict then current else u.value
  {
  }

  /** Writes every node's `final` into one document, in order. */
  function Replay(s: Slot, changes: seq<Node>): Result<Slot, ApplyError>
    decreases |changes|
  {
    if changes == [] then Ok(s)
    else
      var s' :- Replay(s, changes[..|changes| - 1]);
      var n := changes[|changes| - 1];
      Update(s', ParentPath(n.keys), LastKey(n.keys), n.final, n.keys)
  }

  /** The nodes that are not conflicts, in order. */
  function NonConflicting(changes: seq<Node>): (r: seq<Node>)
    ensures forall n :: n in r <==> n in changes && !n.isConflict
    decreases |changes|
  {
    if changes == [] then []
    else
      var init, n := changes[..|changes| - 1], changes[|changes| - 1];
      assert changes == init + [n];
      NonConflicting(init) + (if n.isConflict then [] else [n])
  }

  lemma ApplyAllLast(base: Slot, changes: seq<Node>)
    requires changes != [] && ApplyAll(base, changes).Ok?
    ensures var init := changes[..|changes| - 1];
      && ApplyAll(base, init).Ok?
      && ApplyAll(base, changes) == ApplyOne(ApplyAll(base, init).value.0, ApplyAll(base, init).value.1, changes[|changes| - 1])
  {
  }

  /**
   * After a successful run, the after copy is `base` with every node written
   * into it.
   */
  lemma {:induction false} ApplyAllReplaysAfter(base: Slot, changes: seq<Node>)
    requires ApplyAll(base, changes).Ok?
    ensures Replay(base, changes) == Ok(ApplyAll(base, changes).value.1)
    decreases |changes|
  {
    if changes != [] {
      var init, n := changes[..|changes| - 1], changes[|changes| - 1];
      ApplyAllLast(base, changes);
      ApplyAllReplaysAfter(base, init);
      var (c, a) := ApplyAll(base, init).value;
      ApplyOneWrites(c, a, n);
    }
  }

  /**
   * After a successful run, the current copy is `base` with only the
   * non-conflicting nodes written into it.
   */
  lemma {:induction false} ApplyAllReplaysCurrent(base: Slot, changes: seq<Node>)
    requires ApplyAll(base, changes).Ok?
    ensures Replay(base, NonConflicting(changes)) == Ok(ApplyAll(base, changes).value.0)
    decreases |changes|
  {
    if changes != [] {
      var init, n := changes[..|changes| - 1], changes[|changes| - 1];
      ApplyAllLast(base, changes);
      ApplyAllReplaysCurrent(base, init);
      var (c, a) := ApplyAll(base, init).value;
      ApplyOneWrites(c, a, n);
      if !n.isConflict {
        assert NonConflicting(changes) == NonConflicting(init) + [n];
        ReplaySnoc(base, NonConflicting(init), n);
      } else {
        assert NonConflicting(changes) == NonConflicting(init);
      }
    }
  }

  lemma ReplaySnoc(s: Slot, changes: seq<Node>, n: Node)
    ensures Replay(s, changes + [n])
      == match Replay(s, changes)
         case Err(e) => Err(e)
         case Ok(s') => Update(s', ParentPath(n.keys), LastKey(n.keys), n.final, n.keys)
  {
    assert (changes + [n])[..|changes|] == changes;
  }

  /** Without conflicting nodes the two copies come out equal. */
  lemma NoConflictSameCopies(base: Slot, changes: seq<Node>)
    requires ApplyAll(base, changes).Ok?
    requires forall n :: n in changes ==> !n.isConflict
    ensures ApplyAll(base, changes).value.0 == ApplyAll(base, changes).value.1
  {
    ApplyAllReplaysAfter(base, changes);
    ApplyAllReplaysCurrent(base, changes);
    NonConflictingAll(changes);
  }

  lemma {:induction false} NonConflictingAll(changes: seq<Node>)
    requires forall n :: n in changes ==> !n.isConflict
    ensures NonConflicting(changes) == changes
    decreases |changes|
  {
    if changes != [] {
      var init, last := changes[..|changes| - 1], changes[|changes| - 1];
      assert !last.isConflict by {
        assert last in changes;
      }
      assert forall n :: n in init ==> !n.isConflict by {
        forall n | n in init
          ensures !n.isConflict
        {
          var i :| 0 <= i < |init| && init[i] == n;
          assert changes[i] == n;
        }
      }
      calc {
        NonConflicting(changes);
        NonConflicting(init) + [last];
        { NonConflictingAll(init); }
        init + [last];
        changes;
      }
    }
  }

  /** When every node is a conflict, the current copy is `base` itself. */
  lemma AllConflictsKeepCurrent(base: Slot, changes: seq<Node>)
    requires ApplyAll(base, changes).Ok?
    requires forall n :: n in changes ==> n.isConflict
    ensures ApplyAll(base, changes).value.0 == base
  {
    ApplyAllReplaysCurrent(base, changes);
    NonConflictingNone(changes);
  }

  lemma {:induction false} NonConflictingNone(changes: seq<Node>)
    requires forall n :: n in changes ==> n.isConflict
    ensures NonConflicting(changes) == []
    decreases |changes|
  {
    if changes != [] {
      var init, last := changes[..|changes| - 1], changes[|changes| - 1];
      assert last.isConflict by {
        assert last in changes;
      }
      assert forall n :: n in init ==> n.isConflict by {
        forall n | n in init
          ensures n.isConflict
        {
          var i :| 0 <= i < |init| && init[i] == n;
          assert changes[i] == n;
        }
      }
      NonConflictingNone(init);
    }
  }
}
