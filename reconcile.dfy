// The classification passes of the upgrade command: every generated path is
// compared across three fingerprints (at the last generation, at this
// regeneration, and in the live package) and sorted into the lists
// added / removed / updated / conflicted / warnings.

module Reconcile {
  import opened Wrappers
  import Json

  /** A fingerprint map (a JavaScript `Map` from relative path to fingerprint), in insertion order. */
  type HashMap = seq<(string, string)>

  /** The paths of a fingerprint map, in insertion order. */
  function Paths(m: HashMap): seq<string> {
    Json.Keys(m)
  }

  /** A `Map` never holds a key twice. */
  predicate UniquePaths(m: HashMap) {
    forall i, j :: 0 <= i < j < |m| ==> m[i].0 != m[j].0
  }

  /** `map.get(key)`, `None` standing for `undefined` when the key is missing. */
  function Get(m: HashMap, key: string): (r: Option<string>)
    ensures r.None? <==> key !in Paths(m)
    ensures r.Some? ==> (key, r.value) in m
  {
    if m == [] then None
    else if m[0].0 == key then Some(m[0].1)
    else
      assert Paths(m) == [m[0].0] + Paths(m[1..]);
      Get(m[1..], key)
  }

  lemma GetUnique(m: HashMap, i: nat)
    requires UniquePaths(m) && i < |m|
    ensures Get(m, m[i].0) == Some(m[i].1)
  {
    if i > 0 {
      assert UniquePaths(m[1..]) by {
        forall a, b | 0 <= a < b < |m[1..]| ensures m[1..][a].0 != m[1..][b].0 {
          assert m[1..][a] == m[a + 1] && m[1..][b] == m[b + 1];
        }
      }
      assert m[1..][i - 1] == m[i];
      GetUnique(m[1..], i - 1);
    }
  }

  datatype Action = Remove | Update | Add

  /** An entry of `conflicted`; `newValue` is its `new` field, and a remove record has neither that nor `current`. */
  datatype ConflictRecord = ConflictRecord(action: Action, path: string, current: Option<string>, newValue: Option<string>)

  /** What one iteration of either loop pushes, if anything. */
  datatype Verdict = NoRecord | Added | Removed | Updated | Warned | Conflicted(record: ConflictRecord)

  datatype Lists = Lists(added: seq<string>, removed: seq<string>, updated: seq<string>,
                         conflicted: seq<ConflictRecord>, warnings: seq<string>)

  const Empty := Lists([], [], [], [], [])

  /** The warning pushed when the live file already matches the regenerated one. */
  function WarningMessage(key: string): (w: string)
    ensures |w| == |key| + 79
  {
    "It looks like " + key + " was correctly changed before the upgrade, but you should confirm"
  }

  /** Distinct paths give distinct warnings, so the warnings name the paths they warn about. */
  lemma WarningMessageInjective(p: string, q: string)
    requires WarningMessage(p) == WarningMessage(q)
    ensures p == q
  {
    assert p == WarningMessage(p)[14..14 + |p|];
    assert q == WarningMessage(q)[14..14 + |q|];
  }

  /**
   * Pass 1, for a path of the old map with fingerprint `val`: dropped from the
   * new map, or changed in it. `live` is `getHash` on the live file, `""` when
   * it is missing.
   */
  function OldPathVerdict(key: string, val: string, newHashes: HashMap, live: string -> string): Verdict {
    match Get(newHashes, key)
    case None => DroppedVerdict(key, val, live)
    case Some(newVal) => if val == newVal then NoRecord else ChangedVerdict(key, val, newVal, live)
  }

  /** A path the regenerated project no longer has. */
  function DroppedVerdict(key: string, val: string, live: string -> string): Verdict {
    var currentHash := live(key);
    if currentHash == val then Removed
    else if currentHash != "" then Conflicted(ConflictRecord(Remove, key, None, None))
    else NoRecord
  }

  /** A path whose fingerprint changed from `val` to `newVal`. */
  function ChangedVerdict(key: string, val: string, newVal: string, live: string -> string): Verdict {
    var currentHash := live(key);
    if currentHash == val then Updated
    else if currentHash == newVal then Warned
    else Conflicted(ConflictRecord(Update, key, Some(currentHash), Some(val)))
  }

  /** Pass 2, for a path of the new map with fingerprint `val`. */
  function NewPathVerdict(key: string, val: string, oldHashes: HashMap, live: string -> string): Verdict {
    if Get(oldHashes, key).Some? then NoRecord
    else
      var currentHash := live(key);
      if currentHash == "" then Added
      else if currentHash != "" then Conflicted(ConflictRecord(Add, key, Some(currentHash), Some(val)))
      else NoRecord
  }

  /** Pushes `v` for `key` onto the list it belongs to. */
  function Record(l: Lists, key: string, v: Verdict): Lists {
    match v
    case NoRecord => l
    case Added => l.(added := l.added + [key])
    case Removed => l.(removed := l.removed + [key])
    case Updated => l.(updated := l.updated + [key])
    case Warned => l.(warnings := l.warnings + [WarningMessage(key)])
    case Conflicted(c) => l.(conflicted := l.conflicted + [c])
  }

  /** The verdicts in the order the two loops reach them. */
  function OldVerdicts(oldHashes: HashMap, newHashes: HashMap, live: string -> string): (vs: seq<(string, Verdict)>)
    ensures |vs| == |oldHashes|
    ensures forall i :: 0 <= i < |vs| ==>
      vs[i] == (oldHashes[i].0, OldPathVerdict(oldHashes[i].0, oldHashes[i].1, newHashes, live))
  {
    seq(|oldHashes|, i requires 0 <= i < |oldHashes| =>
      (oldHashes[i].0, OldPathVerdict(oldHashes[i].0, oldHashes[i].1, newHashes, live)))
  }

  function NewVerdicts(oldHashes: HashMap, newHashes: HashMap, live: string -> string): (vs: seq<(string, Verdict)>)
    ensures |vs| == |newHashes|
    ensures forall i :: 0 <= i < |vs| ==>
      vs[i] == (newHashes[i].0, NewPathVerdict(newHashes[i].0, newHashes[i].1, oldHashes, live))
  {
    seq(|newHashes|, i requires 0 <= i < |newHashes| =>
      (newHashes[i].0, NewPathVerdict(newHashes[i].0, newHashes[i].1, oldHashes, live)))
  }

  function RecordAll(l: Lists, vs: seq<(string, Verdict)>): Lists
    decreases |vs|
  {
    if vs == [] then l
    else Record(RecordAll(l, vs[..|vs| - 1]), vs[|vs| - 1].0, vs[|vs| - 1].1)
  }

  /** The five lists after both loops. */
  function Classify(oldHashes: HashMap, newHashes: HashMap, live: string -> string): Lists {
    RecordAll(Empty, OldVerdicts(oldHashes, newHashes, live) + NewVerdicts(oldHashes, newHashes, live))
  }

  lemma RecordAllStep(l: Lists, vs: seq<(string, Verdict)>, i: nat)
    requires i < |vs|
    ensures RecordAll(l, vs[..i + 1]) == Record(RecordAll(l, vs[..i]), vs[i].0, vs[i].1)
  {
    assert vs[..i + 1][..i] == vs[..i];
  }

  lemma {:induction false} RecordAllAppend(l: Lists, vs: seq<(string, Verdict)>, ws: seq<(string, Verdict)>)
    ensures RecordAll(l, vs + ws) == RecordAll(RecordAll(l, vs), ws)
    decreases |ws|
  {
    if ws == [] {
      assert vs + ws == vs;
    } else {
      assert (vs + ws)[..|vs + ws| - 1] == vs + ws[..|ws| - 1];
      RecordAllAppend(l, vs, ws[..|ws| - 1]);
    }
  }

  /**
   * Lines 81-132: the two loops. The first walks the old map and the second
   * the new one, each pushing onto the list its comparison selects.
   */
  method ClassifyPaths(oldHashes: HashMap, newHashes: HashMap, live: string -> string) returns (lists: Lists)
    ensures lists == Classify(oldHashes, newHashes, live)
  {
    lists := FirstPass(oldHashes, newHashes, live);
    lists := SecondPass(lists, oldHashes, newHashes, live);
    RecordAllAppend(Empty, OldVerdicts(oldHashes, newHashes, live), NewVerdicts(oldHashes, newHashes, live));
  }

  /** Lines 81-116: the loop over the old map. */
  method FirstPass(oldHashes: HashMap, newHashes: HashMap, live: string -> string) returns (lists: Lists)
    ensures lists == RecordAll(Empty, OldVerdicts(oldHashes, newHashes, live))
  {
    lists := Empty;
    ghost var vs := OldVerdicts(oldHashes, newHashes, live);
    for i := 0 to |oldHashes|
      invariant lists == RecordAll(Empty, vs[..i])
    {
      var (key, val) := oldHashes[i];
      RecordAllStep(Empty, vs, i);
      lists := VisitOldPath(lists, key, val, newHashes, live);
    }
    assert vs[..|oldHashes|] == vs;
  }

  /** Lines 82-115: one iteration of the first loop, for path `key` with old fingerprint `val`. */
  method VisitOldPath(l: Lists, key: string, val: string, newHashes: HashMap, live: string -> string) returns (lists: Lists)
    ensures lists == Record(l, key, OldPathVerdict(key, val, newHashes, live))
  {
    var newVal := Get(newHashes, key);
    if newVal.None? {
      lists := VisitDroppedPath(l, key, val, live);
    } else if val != newVal.value {
      lists := VisitChangedPath(l, key, val, newVal.value, live);
    } else {
      lists := l;
    }
  }

  /** Lines 84-95: the path is missing from the new map. */
  method VisitDroppedPath(l: Lists, key: string, val: string, live: string -> string) returns (lists: Lists)
    ensures lists == Record(l, key, DroppedVerdict(key, val, live))
  {
    lists := l;
    var currentHash := live(key);
    if currentHash == val {
      lists := lists.(removed := lists.removed + [key]);
    } else if currentHash != "" {
      lists := lists.(conflicted := lists.conflicted + [ConflictRecord(Remove, key, None, None)]);
    }
  }

  /** Lines 96-114: the path's fingerprint changed. */
  method VisitChangedPath(l: Lists, key: string, val: string, newVal: string, live: string -> string) returns (lists: Lists)
    ensures lists == Record(l, key, ChangedVerdict(key, val, newVal, live))
  {
    lists := l;
    var currentHash := live(key);
    if currentHash == val {
      lists := lists.(updated := lists.updated + [key]);
    } else if currentHash == newVal {
      lists := lists.(warnings := lists.warnings + [WarningMessage(key)]);
    } else {
      lists := lists.(conflicted := lists.conflicted + [ConflictRecord(Update, key, Some(currentHash), Some(val))]);
    }
  }

  /** Lines 118-132: the loop over the new map, pushing onto the lists the first loop left. */
  method SecondPass(afterFirst: Lists, oldHashes: HashMap, newHashes: HashMap, live: string -> string) returns (lists: Lists)
    ensures lists == RecordAll(afterFirst, NewVerdicts(oldHashes, newHashes, live))
  {
    lists := afterFirst;
    ghost var ws := NewVerdicts(oldHashes, newHashes, live);
    for j := 0 to |newHashes|
      invariant lists == RecordAll(afterFirst, ws[..j])
    {
      var (key, val) := newHashes[j];
      RecordAllStep(afterFirst, ws, j);
      lists := VisitNewPath(lists, key, val, oldHashes, live);
    }
    assert ws[..|newHashes|] == ws;
  }

  /** Lines 119-131: one iteration of the second loop, for path `key` with new fingerprint `val`. */
  method VisitNewPath(l: Lists, key: string, val: string, oldHashes: HashMap, live: string -> string) returns (lists: Lists)
    ensures lists == Record(l, key, NewPathVerdict(key, val, oldHashes, live))
  {
    lists := l;
    if Get(oldHashes, key).None? {
      var currentHash := live(key);
      if currentHash == "" {
        lists := lists.(added := lists.added + [key]);
      } else if currentHash != "" {
        lists := lists.(conflicted := lists.conflicted + [ConflictRecord(Add, key, Some(currentHash), Some(val))]);
      }
    }
  }

  // ---------------------------------------------------------------------
  // Properties of the classification
  // ---------------------------------------------------------------------

  /** The verdict a path receives: from pass 1 when the old map has it, else from pass 2. */
  function PathVerdict(oldHashes: HashMap, newHashes: HashMap, live: string -> string, p: string): Verdict {
    match Get(oldHashes, p)
    case Some(val) => OldPathVerdict(p, val, newHashes, live)
    case None =>
      match Get(newHashes, p)
      case Some(val) => NewPathVerdict(p, val, oldHashes, live)
      case None => NoRecord
  }

  /** Every record a verdict holds names the path it was computed for. */
  predicate RecordsNameKeys(vs: seq<(string, Verdict)>) {
    forall i :: 0 <= i < |vs| && vs[i].1.Conflicted? ==> vs[i].1.record.path == vs[i].0
  }

  /** The lists are exactly the verdicts, list by list. */
  lemma RecordAllMembers(vs: seq<(string, Verdict)>)
    ensures var l := RecordAll(Empty, vs);
      && (forall p :: p in l.added <==> (p, Added) in vs)
      && (forall p :: p in l.removed <==> (p, Removed) in vs)
      && (forall p :: p in l.updated <==> (p, Updated) in vs)
      && (forall w :: w in l.warnings <==> exists p :: (p, Warned) in vs && w == WarningMessage(p))
      && (forall c :: c in l.conflicted <==> exists p :: (p, Conflicted(c)) in vs)
  {
    RecordAllPaths(vs);
    RecordAllWarnings(vs);
    RecordAllConflicts(vs);
  }

  lemma {:induction false} RecordAllPaths(vs: seq<(string, Verdict)>)
    ensures var l := RecordAll(Empty, vs);
      && (forall p :: p in l.added <==> (p, Added) in vs)
      && (forall p :: p in l.removed <==> (p, Removed) in vs)
      && (forall p :: p in l.updated <==> (p, Updated) in vs)
    decreases |vs|
  {
    if vs != [] {
      var init := vs[..|vs| - 1];
      RecordAllPaths(init);
      assert vs == init + [vs[|vs| - 1]];
    }
  }

  lemma {:induction false} RecordAllWarnings(vs: seq<(string, Verdict)>)
    ensures forall w :: w in RecordAll(Empty, vs).warnings <==> exists p :: (p, Warned) in vs && w == WarningMessage(p)
    decreases |vs|
  {
    if vs != [] {
      var init := vs[..|vs| - 1];
      RecordAllWarnings(init);
      assert vs == init + [vs[|vs| - 1]];
    }
  }

  lemma {:induction false} RecordAllConflicts(vs: seq<(string, Verdict)>)
    ensures forall c :: c in RecordAll(Empty, vs).conflicted <==> exists p :: (p, Conflicted(c)) in vs
    decreases |vs|
  {
    if vs != [] {
      var init := vs[..|vs| - 1];
      RecordAllConflicts(init);
      assert vs == init + [vs[|vs| - 1]];
    }
  }

  lemma VerdictsNameKeys(oldHashes: HashMap, newHashes: HashMap, live: string -> string)
    ensures RecordsNameKeys(OldVerdicts(oldHashes, newHashes, live) + NewVerdicts(oldHashes, newHashes, live))
  {
    var vs := OldVerdicts(oldHashes, newHashes, live);
    var ws := NewVerdicts(oldHashes, newHashes, live);
    var all: seq<(string, Verdict)> := vs + ws;
    forall i | 0 <= i < |all| && all[i].1.Conflicted?
      ensures all[i].1.record.path == all[i].0
    {
      if i < |vs| {
        assert all[i] == vs[i];
        OldVerdictNamesKey(oldHashes[i].0, oldHashes[i].1, newHashes, live);
      } else {
        var j := i - |vs|;
        assert all[i] == ws[j];
        NewVerdictNamesKey(newHashes[j].0, newHashes[j].1, oldHashes, live);
      }
    }
  }

  /** A conflict record of the first pass names the path its verdict was computed for. */
  lemma OldVerdictNamesKey(key: string, val: string, newHashes: HashMap, live: string -> string)
    ensures var v := OldPathVerdict(key, val, newHashes, live); v.Conflicted? ==> v.record.path == key
  {
  }

  /** A conflict record of the second pass names the path its verdict was computed for. */
  lemma NewVerdictNamesKey(key: string, val: string, oldHashes: HashMap, live: string -> string)
    ensures var v := NewPathVerdict(key, val, oldHashes, live); v.Conflicted? ==> v.record.path == key
  {
  }

  /** An entry of either loop carries its path's verdict (given maps without repeated keys). */
  lemma EntryVerdict(oldHashes: HashMap, newHashes: HashMap, live: string -> string, p: string, v: Verdict)
    requires UniquePaths(oldHashes) && UniquePaths(newHashes)
    requires v != NoRecord
    ensures (p, v) in OldVerdicts(oldHashes, newHashes, live) + NewVerdicts(oldHashes, newHashes, live)
      <==> PathVerdict(oldHashes, newHashes, live, p) == v
  {
    if (p, v) in OldVerdicts(oldHashes, newHashes, live) + NewVerdicts(oldHashes, newHashes, live) {
      EntryVerdictSound(oldHashes, newHashes, live, p, v);
    }
    if PathVerdict(oldHashes, newHashes, live, p) == v {
      EntryVerdictListed(oldHashes, newHashes, live, p);
    }
  }

  /** A listed entry that records something is its path's verdict. */
  lemma EntryVerdictSound(oldHashes: HashMap, newHashes: HashMap, live: string -> string, p: string, v: Verdict)
    requires UniquePaths(oldHashes) && UniquePaths(newHashes)
    requires v != NoRecord
    requires (p, v) in OldVerdicts(oldHashes, newHashes, live) + NewVerdicts(oldHashes, newHashes, live)
    ensures PathVerdict(oldHashes, newHashes, live, p) == v
  {
    var vs := OldVerdicts(oldHashes, newHashes, live);
    var ws := NewVerdicts(oldHashes, newHashes, live);
    if (p, v) in vs {
      var i :| 0 <= i < |vs| && vs[i] == (p, v);
      OldEntryVerdict(oldHashes, newHashes, live, i);
    } else {
      assert (p, v) in ws;
      var j :| 0 <= j < |ws| && ws[j] == (p, v);
      NewEntryVerdict(oldHashes, newHashes, live, j);
    }
  }

  /** The first loop's entry for the `i`-th old path is that path's verdict. */
  lemma OldEntryVerdict(oldHashes: HashMap, newHashes: HashMap, live: string -> string, i: nat)
    requires UniquePaths(oldHashes) && i < |oldHashes|
    ensures OldVerdicts(oldHashes, newHashes, live)[i] == (oldHashes[i].0, PathVerdict(oldHashes, newHashes, live, oldHashes[i].0))
  {
    GetUnique(oldHashes, i);
  }

  /** A record of the second loop for the `j`-th new path is that path's verdict. */
  lemma NewEntryVerdict(oldHashes: HashMap, newHashes: HashMap, live: string -> string, j: nat)
    requires UniquePaths(newHashes) && j < |newHashes|
    ensures var w := NewVerdicts(oldHashes, newHashes, live)[j];
      w.1 != NoRecord ==> w == (newHashes[j].0, PathVerdict(oldHashes, newHashes, live, newHashes[j].0))
  {
    GetUnique(newHashes, j);
  }

  /** A path whose verdict records something has that verdict listed by one of the loops. */
  lemma EntryVerdictListed(oldHashes: HashMap, newHashes: HashMap, live: string -> string, p: string)
    requires PathVerdict(oldHashes, newHashes, live, p) != NoRecord
    ensures (p, PathVerdict(oldHashes, newHashes, live, p))
      in OldVerdicts(oldHashes, newHashes, live) + NewVerdicts(oldHashes, newHashes, live)
  {
    var vs := OldVerdicts(oldHashes, newHashes, live);
    var ws := NewVerdicts(oldHashes, newHashes, live);
    var v := PathVerdict(oldHashes, newHashes, live, p);
    match Get(oldHashes, p)
    case Some(val) =>
      var i :| 0 <= i < |oldHashes| && oldHashes[i] == (p, val);
      assert vs[i] == (p, v);
      assert (vs + ws)[i] == vs[i];
    case None =>
      var val := Get(newHashes, p).value;
      var j :| 0 <= j < |newHashes| && newHashes[j] == (p, val);
      assert ws[j] == (p, v);
      assert (vs + ws)[|vs| + j] == ws[j];
  }

  /**
   * Each list holds exactly the paths with that verdict: the lists partition
   * the paths that get a record, so no path lands in two of them.
   */
  lemma ClassifyMembers(oldHashes: HashMap, newHashes: HashMap, live: string -> string, p: string)
    requires UniquePaths(oldHashes) && UniquePaths(newHashes)
    ensures var l, v := Classify(oldHashes, newHashes, live), PathVerdict(oldHashes, newHashes, live, p);
      && (p in l.added <==> v == Added)
      && (p in l.removed <==> v == Removed)
      && (p in l.updated <==> v == Updated)
      && (WarningMessage(p) in l.warnings <==> v == Warned)
      && (forall c :: c in l.conflicted && c.path == p <==> v == Conflicted(c))
  {
    ClassifyPathLists(oldHashes, newHashes, live, p);
    ClassifyWarnings(oldHashes, newHashes, live, p);
    ClassifyConflicts(oldHashes, newHashes, live, p);
  }

  lemma ClassifyPathLists(oldHashes: HashMap, newHashes: HashMap, live: string -> string, p: string)
    requires UniquePaths(oldHashes) && UniquePaths(newHashes)
    ensures var l, v := Classify(oldHashes, newHashes, live), PathVerdict(oldHashes, newHashes, live, p);
      && (p in l.added <==> v == Added)
      && (p in l.removed <==> v == Removed)
      && (p in l.updated <==> v == Updated)
  {
    RecordAllPaths(OldVerdicts(oldHashes, newHashes, live) + NewVerdicts(oldHashes, newHashes, live));
    EntryVerdict(oldHashes, newHashes, live, p, Added);
    EntryVerdict(oldHashes, newHashes, live, p, Removed);
    EntryVerdict(oldHashes, newHashes, live, p, Updated);
  }

  lemma ClassifyWarnings(oldHashes: HashMap, newHashes: HashMap, live: string -> string, p: string)
    requires UniquePaths(oldHashes) && UniquePaths(newHashes)
    ensures WarningMessage(p) in Classify(oldHashes, newHashes, live).warnings
      <==> PathVerdict(oldHashes, newHashes, live, p) == Warned
  {
    var vs := OldVerdicts(oldHashes, newHashes, live) + NewVerdicts(oldHashes, newHashes, live);
    RecordAllWarnings(vs);
    EntryVerdict(oldHashes, newHashes, live, p, Warned);
    forall q | (q, Warned) in vs && WarningMessage(p) == WarningMessage(q) ensures q == p {
      WarningMessageInjective(p, q);
    }
  }

  lemma ClassifyConflicts(oldHashes: HashMap, newHashes: HashMap, live: string -> string, p: string)
    requires UniquePaths(oldHashes) && UniquePaths(newHashes)
    ensures forall c ::
      (c in Classify(oldHashes, newHashes, live).conflicted && c.path == p
       <==> PathVerdict(oldHashes, newHashes, live, p) == Conflicted(c))
  {
    var vs := OldVerdicts(oldHashes, newHashes, live) + NewVerdicts(oldHashes, newHashes, live);
    RecordAllConflicts(vs);
    VerdictsNameKeys(oldHashes, newHashes, live);
    forall c | true
      ensures c in Classify(oldHashes, newHashes, live).conflicted && c.path == p
        <==> PathVerdict(oldHashes, newHashes, live, p) == Conflicted(c)
    {
      EntryVerdict(oldHashes, newHashes, live, p, Conflicted(c));
      if c in Classify(oldHashes, newHashes, live).conflicted && c.path == p {
        var q :| (q, Conflicted(c)) in vs;
        var i :| 0 <= i < |vs| && vs[i] == (q, Conflicted(c));
        assert q == p;
      }
    }
  }

  /** A path whose fingerprint did not change between generations gets no record, whatever the live file holds. */
  lemma UnchangedFingerprintNoRecord(oldHashes: HashMap, newHashes: HashMap, live: string -> string, p: string, val: string)
    requires Get(oldHashes, p) == Some(val) && Get(newHashes, p) == Some(val)
    ensures PathVerdict(oldHashes, newHashes, live, p) == NoRecord
  {
  }

  /** A path only the old map has: removed, a remove conflict, or nothing when the live file is missing. */
  lemma DroppedPathVerdict(oldHashes: HashMap, newHashes: HashMap, live: string -> string, p: string, val: string)
    requires Get(oldHashes, p) == Some(val) && Get(newHashes, p) == None
    ensures var v := PathVerdict(oldHashes, newHashes, live, p);
      && (v == Removed <==> live(p) == val)
      && (v == NoRecord <==> live(p) == "" && val != "")
      && (v.Conflicted? <==> live(p) != val && live(p) != "")
      && (v.Conflicted? ==> v.record == ConflictRecord(Remove, p, None, None))
  {
  }

  /**
   * A path whose fingerprint changed: updated when the live file is as
   * generated, a warning when it already matches the new generation, else an
   * update conflict (a missing live file included). The record's `new` field
   * stores the old fingerprint, not the new one.
   */
  lemma ChangedPathVerdict(oldHashes: HashMap, newHashes: HashMap, live: string -> string, p: string,
                           val: string, newVal: string)
    requires Get(oldHashes, p) == Some(val) && Get(newHashes, p) == Some(newVal) && val != newVal
    ensures var v := PathVerdict(oldHashes, newHashes, live, p);
      && (v == Updated <==> live(p) == val)
      && (v == Warned <==> live(p) == newVal)
      && (v.Conflicted? <==> live(p) != val && live(p) != newVal)
      && (v.Conflicted? ==> v.record == ConflictRecord(Update, p, Some(live(p)), Some(val)))
      && (live(p) == "" && val != "" && newVal != "" ==> v.Conflicted?)
  {
  }

  /**
   * A path only the new map has: added when the live file is missing,
   * otherwise an add conflict; the `!== ""` test never fails, so pass 2 never
   * leaves such a path without a record.
   */
  lemma NewPathVerdictTwoOutcomes(oldHashes: HashMap, newHashes: HashMap, live: string -> string, p: string, val: string)
    requires Get(oldHashes, p) == None && Get(newHashes, p) == Some(val)
    ensures var v := PathVerdict(oldHashes, newHashes, live, p);
      && v != NoRecord
      && (v == Added <==> live(p) == "")
      && (v.Conflicted? ==> v.record == ConflictRecord(Add, p, Some(live(p)), Some(val)))
  {
  }

  /** Pass 2 skips every path the old map has: its verdict comes from pass 1 alone. */
  lemma SecondPassSkipsOldPaths(oldHashes: HashMap, newHashes: HashMap, live: string -> string, j: nat)
    requires j < |newHashes| && newHashes[j].0 in Paths(oldHashes)
    ensures NewVerdicts(oldHashes, newHashes, live)[j].1 == NoRecord
  {
  }
}
