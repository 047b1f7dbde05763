// The write phase of the upgrade command: for every conflicted path, the live
// file and the regenerated file are split into lines, the zero-context diff
// hunks between them are turned into groups, and the groups are written back
// as the live file with `<<<<<<< CURRENT` / `=======` / `>>>>>>> UPGRADED`
// blocks around each changed region.

module TextMerge {
  import opened Wrappers
  import Reconcile
  import opened Sequences

  // ---------------------------------------------------------------------
  // Lines: `split(/\r?\n/)` and `join(newline)`
  // ---------------------------------------------------------------------

  /** The index of the first line feed of `s`, if any. */
  function FirstNewline(s: string): (r: Option<nat>)
    ensures r.None? <==> '\n' !in s
    ensures r.Some? ==> r.value < |s| && s[r.value] == '\n' && '\n' !in s[..r.value]
  {
    if s == [] then None
    else if s[0] == '\n' then Some(0)
    else
      var r := FirstNewline(s[1..]);
      assert s == [s[0]] + s[1..];
      if r.None? then None
      else
        assert s[..r.value + 1] == [s[0]] + s[1..][..r.value];
        Some(r.value + 1)
  }

  /** `s.split(/\r?\n/)`: cut at every line feed, dropping a carriage return just before it. */
  function SplitLines(s: string): (lines: seq<string>)
    ensures |lines| >= 1
    ensures forall i :: 0 <= i < |lines| ==> '\n' !in lines[i]
    decreases |s|
  {
    match FirstNewline(s)
    case None => [s]
    case Some(i) =>
      var line := if i > 0 && s[i - 1] == '\r' then s[..i - 1] else s[..i];
      assert forall c :: c in line ==> c in s[..i];
      [line] + SplitLines(s[i + 1..])
  }

  /** `lines.join(sep)`. */
  function Join(lines: seq<string>, sep: string): string
    decreases |lines|
  {
    if lines == [] then ""
    else if |lines| == 1 then lines[0]
    else lines[0] + sep + Join(lines[1..], sep)
  }

  /** Without carriage returns, splitting and joining with "\n" gives the text back. */
  lemma {:induction false} SplitJoinRoundTrip(s: string)
    requires '\r' !in s
    ensures Join(SplitLines(s), "\n") == s
    decreases |s|
  {
    match FirstNewline(s)
    case None =>
    case Some(i) =>
      assert s == s[..i] + "\n" + s[i + 1..];
      assert '\r' !in s[i + 1..] by {
        assert forall c :: c in s[i + 1..] ==> c in s;
      }
      SplitJoinRoundTrip(s[i + 1..]);
  }

  /** Every line feed of `s` ends a "\r\n" pair, and every carriage return starts one. */
  predicate CrlfOnly(s: string) {
    forall i :: 0 <= i < |s| ==> CrlfPairedAt(s, i)
  }

  /** The character at `i` is not a lone line feed or carriage return. */
  predicate CrlfPairedAt(s: string, i: nat)
    requires i < |s|
  {
    && (s[i] == '\n' ==> i > 0 && s[i - 1] == '\r')
    && (s[i] == '\r' ==> i + 1 < |s| && s[i + 1] == '\n')
  }

  /** With "\r\n" line breaks only, splitting and joining with "\r\n" gives the text back. */
  lemma {:induction false} SplitJoinCrlfRoundTrip(s: string)
    requires CrlfOnly(s)
    ensures Join(SplitLines(s), "\r\n") == s
    decreases |s|
  {
    match FirstNewline(s)
    case None =>
    case Some(i) =>
      var rest := s[i + 1..];
      CrlfAt(s, i);
      CrlfOnlyAfter(s, i);
      SplitJoinCrlfRoundTrip(rest);
      SplitAtCrlf(s, i);
      assert s == s[..i - 1] + "\r\n" + rest;
  }

  /** A first line feed after a carriage return ends the first line just before that carriage return. */
  lemma SplitAtCrlf(s: string, i: nat)
    requires FirstNewline(s) == Some(i) && i > 0 && s[i - 1] == '\r'
    ensures SplitLines(s) == [s[..i - 1]] + SplitLines(s[i + 1..])
  {
  }

  /** `CrlfOnly` at one position. */
  lemma CrlfAt(s: string, k: nat)
    requires CrlfOnly(s) && k < |s|
    ensures s[k] == '\n' ==> k > 0 && s[k - 1] == '\r'
    ensures s[k] == '\r' ==> k + 1 < |s| && s[k + 1] == '\n'
  {
    assert CrlfPairedAt(s, k);
  }

  /** What follows a line feed again has "\r\n" line breaks only. */
  lemma CrlfOnlyAfter(s: string, i: nat)
    requires CrlfOnly(s) && i < |s| && s[i] == '\n'
    ensures CrlfOnly(s[i + 1..])
  {
    var rest := s[i + 1..];
    forall j | 0 <= j < |rest|
      ensures CrlfPairedAt(rest, j)
    {
      CrlfAt(s, i + 1 + j);
      assert rest[j] == s[i + 1 + j];
      if rest[j] == '\n' {
        assert s[i + j] == '\r';
        assert rest[j - 1] == s[i + j];
      }
      if rest[j] == '\r' {
        assert rest[j + 1] == s[i + 2 + j];
      }
    }
  }

  /** Lines joined with "\n" split back into the same lines when none holds a line feed or ends in a carriage return. */
  lemma {:induction false} JoinSplitRoundTrip(lines: seq<string>)
    requires |lines| >= 1
    requires forall i :: 0 <= i < |lines| ==> '\n' !in lines[i] && (lines[i] == [] || lines[i][|lines[i]| - 1] != '\r')
    ensures SplitLines(Join(lines, "\n")) == lines
    decreases |lines|
  {
    if |lines| == 1 {
      assert FirstNewline(lines[0]).None?;
    } else {
      var l := lines[0];
      var rest := Join(lines[1..], "\n");
      var s := l + "\n" + rest;
      assert Join(lines, "\n") == s;
      assert s[..|l|] == l && s[|l|] == '\n' && s[|l| + 1..] == rest;
      FirstNewlineAt(s, |l|);
      SplitAtNewline(s, |l|);
      assert forall i :: 0 <= i < |lines[1..]| ==> lines[1..][i] == lines[i + 1];
      JoinSplitRoundTrip(lines[1..]);
      assert lines == [l] + lines[1..];
    }
  }

  /** A line feed not preceded by a carriage return ends the first line exactly there. */
  lemma SplitAtNewline(s: string, i: nat)
    requires FirstNewline(s) == Some(i)
    requires i == 0 || s[i - 1] != '\r'
    ensures SplitLines(s) == [s[..i]] + SplitLines(s[i + 1..])
  {
  }

  lemma FirstNewlineAt(s: string, i: nat)
    requires i < |s| && s[i] == '\n' && '\n' !in s[..i]
    ensures FirstNewline(s) == Some(i)
  {
    var j := FirstNewline(s).value;
    assert forall k :: 0 <= k < j ==> s[..j][k] == s[k];
    assert forall k :: 0 <= k < i ==> s[..i][k] == s[k];
  }

  // ---------------------------------------------------------------------
  // Hunks and `Array.prototype.slice`
  // ---------------------------------------------------------------------

  /** A zero-context diff hunk: 1-based start lines and line counts in the old (current) and new texts. */
  datatype Hunk = Hunk(oldStart: int, oldLines: int, newStart: int, newLines: int)

  /** The index `slice` uses for a possibly negative or out-of-range bound. */
  function SliceIndex(len: nat, k: int): (r: nat)
    ensures r <= len
    ensures 0 <= k <= len ==> r == k
  {
    if k < 0 then (if len + k < 0 then 0 else len + k)
    else if k > len then len
    else k
  }

  /** `s.slice(start, end)`, negative bounds counting from the end. */
  function JsSlice<T>(s: seq<T>, start: int, end: int): (r: seq<T>)
    ensures 0 <= start <= end <= |s| ==> r == s[start..end]
    ensures |r| <= |s|
  {
    var from, to := SliceIndex(|s|, start), SliceIndex(|s|, end);
    if from < to then s[from..to] else []
  }

  /** A run of current lines copied verbatim, or a changed region with both versions. */
  datatype Group = Unchanged(lines: seq<string>) | Change(current: seq<string>, upgraded: seq<string>)

  /** Pushes an unchanged group only when it has lines (lines 210 and 219-221). */
  function UnchangedGroup(lines: seq<string>): seq<Group> {
    if |lines| > 0 then [Unchanged(lines)] else []
  }

  /** The current line index just past a hunk's old lines, where the next unchanged run starts. */
  function OldEnd(h: Hunk): int {
    h.oldStart + h.oldLines - 1
  }

  function NewEnd(h: Hunk): int {
    h.newStart + h.newLines - 1
  }

  /** The changed region of one hunk: its old lines from `current`, its new lines from `upgraded` (lines 202-207). */
  function HunkChange(current: seq<string>, upgraded: seq<string>, h: Hunk): Group {
    Change(JsSlice(current, h.oldStart - 1, OldEnd(h)), JsSlice(upgraded, h.newStart - 1, NewEnd(h)))
  }

  /** What one hunk pushes: the unchanged run since `lastIndex`, when non-empty, then its changed region. */
  function HunkGroups(current: seq<string>, upgraded: seq<string>, h: Hunk, lastIndex: int): seq<Group> {
    UnchangedGroup(JsSlice(current, lastIndex, h.oldStart - 1)) + [HunkChange(current, upgraded, h)]
  }

  /**
   * The groups built from `hunks`, starting at current line `lastIndex`; the
   * trailing unchanged run once the hunks run out.
   */
  function GroupsFrom(current: seq<string>, upgraded: seq<string>, hunks: seq<Hunk>, lastIndex: int): seq<Group>
    decreases |hunks|
  {
    if hunks == [] then UnchangedGroup(JsSlice(current, lastIndex, |current|))
    else HunkGroups(current, upgraded, hunks[0], lastIndex) + GroupsFrom(current, upgraded, hunks[1..], OldEnd(hunks[0]))
  }

  lemma HunkGroupsUnfold(current: seq<string>, upgraded: seq<string>, h: Hunk, lastIndex: int)
    ensures HunkGroups(current, upgraded, h, lastIndex)
         == UnchangedGroup(JsSlice(current, lastIndex, h.oldStart - 1))
          + [Change(JsSlice(current, h.oldStart - 1, h.oldStart + h.oldLines - 1),
                    JsSlice(upgraded, h.newStart - 1, h.newStart + h.newLines - 1))]
  {
  }

  /** The two pushes of one loop iteration, the first one only for a non-empty run. */
  lemma PushHunk(prev: seq<Group>, before: seq<string>, change: Group)
    ensures (if |before| > 0 then prev + [Unchanged(before)] else prev) + [change]
         == prev + (UnchangedGroup(before) + [change])
  {
    if |before| > 0 {
      Assoc(prev, [Unchanged(before)], [change]);
    }
  }

  /** Lines 199-210: the body of the hunk loop, pushing the unchanged run (when non-empty) and the hunk's changed region. */
  method PushHunkGroups(groups: seq<Group>, current: seq<string>, upgraded: seq<string>, hunk: Hunk, lastIndex: int)
    returns (groups': seq<Group>)
    ensures groups' == groups + HunkGroups(current, upgraded, hunk, lastIndex)
  {
    var beforeGroup := JsSlice(current, lastIndex, hunk.oldStart - 1);
    var oldHunkLines := JsSlice(current, hunk.oldStart - 1, hunk.oldStart + hunk.oldLines - 1);
    var newHunkLines := JsSlice(upgraded, hunk.newStart - 1, hunk.newStart + hunk.newLines - 1);
    groups' := groups;
    if |beforeGroup| > 0 {
      groups' := groups' + [Unchanged(beforeGroup)];
    }
    groups' := groups' + [Change(oldHunkLines, newHunkLines)];
    HunkGroupsUnfold(current, upgraded, hunk, lastIndex);
    PushHunk(groups, beforeGroup, Change(oldHunkLines, newHunkLines));
  }

  /** Lines 198-222: the hunk loop, then the trailing group. */
  method BuildGroups(current: seq<string>, upgraded: seq<string>, hunks: seq<Hunk>) returns (groups: seq<Group>)
    ensures groups == GroupsFrom(current, upgraded, hunks, 0)
  {
    groups := [];
    var lastIndex := 0;
    assert hunks[0..] == hunks;
    for i := 0 to |hunks|
      invariant groups + GroupsFrom(current, upgraded, hunks[i..], lastIndex) == GroupsFrom(current, upgraded, hunks, 0)
    {
      var hunk := hunks[i];
      ghost var prev := groups;
      groups := PushHunkGroups(groups, current, upgraded, hunk, lastIndex);
      GroupsFromStep(current, upgraded, hunks, i, lastIndex, prev);
      lastIndex := OldEnd(hunk);
    }
    assert hunks[|hunks|..] == [];
    assert GroupsFrom(current, upgraded, [], lastIndex) == UnchangedGroup(JsSlice(current, lastIndex, |current|));
    groups := PushTrailing(groups, current, lastIndex);
  }

  /** One hunk's groups, pushed after `prev`, leave the rest of the hunks to build. */
  lemma GroupsFromStep(current: seq<string>, upgraded: seq<string>, hunks: seq<Hunk>, i: nat, lastIndex: int, prev: seq<Group>)
    requires i < |hunks|
    ensures (prev + HunkGroups(current, upgraded, hunks[i], lastIndex)) + GroupsFrom(current, upgraded, hunks[i + 1..], OldEnd(hunks[i]))
         == prev + GroupsFrom(current, upgraded, hunks[i..], lastIndex)
  {
    var step := HunkGroups(current, upgraded, hunks[i], lastIndex);
    var rest := GroupsFrom(current, upgraded, hunks[i + 1..], OldEnd(hunks[i]));
    Assoc(prev, step, rest);
    assert hunks[i..][0] == hunks[i] && hunks[i..][1..] == hunks[i + 1..];
  }

  /** Lines 219-221: the unchanged run after the last hunk, when non-empty. */
  method PushTrailing(groups: seq<Group>, current: seq<string>, lastIndex: int) returns (groups': seq<Group>)
    ensures groups' == groups + UnchangedGroup(JsSlice(current, lastIndex, |current|))
  {
    var afterGroup := JsSlice(current, lastIndex, |current|);
    if |afterGroup| > 0 {
      groups' := groups + [Unchanged(afterGroup)];
    } else {
      groups' := groups;
      assert groups + [] == groups;
    }
  }

  const OpenMarker := "<<<<<<< CURRENT"
  const MidMarker := "======="
  const CloseMarker := ">>>>>>> UPGRADED"

  /** The lines a group contributes to the merged file. */
  function GroupLines(g: Group): seq<string> {
    match g
    case Unchanged(lines) => lines
    case Change(cur, upg) => [OpenMarker] + cur + [MidMarker] + upg + [CloseMarker]
  }

  function Render(groups: seq<Group>): seq<string>
    decreases |groups|
  {
    if groups == [] then [] else GroupLines(groups[0]) + Render(groups[1..])
  }

  lemma RenderSnoc(groups: seq<Group>, i: nat)
    requires i < |groups|
    ensures Render(groups[..i + 1]) == Render(groups[..i]) + GroupLines(groups[i])
  {
    assert groups[..i + 1] == groups[..i] + [groups[i]];
    RenderAppend(groups[..i], [groups[i]]);
    assert Render([groups[i]]) == GroupLines(groups[i]) + [];
  }

  /** Lines 224-237: each group's lines pushed in turn. */
  method EmitLines(groups: seq<Group>) returns (mergeFileLines: seq<string>)
    ensures mergeFileLines == Render(groups)
  {
    mergeFileLines := [];
    for i := 0 to |groups|
      invariant mergeFileLines == Render(groups[..i])
    {
      RenderSnoc(groups, i);
      match groups[i]
      case Unchanged(lines) =>
        mergeFileLines := mergeFileLines + lines;
      case Change(cur, upg) =>
        mergeFileLines := mergeFileLines + ([OpenMarker] + cur + [MidMarker] + upg + [CloseMarker]);
    }
    assert groups[..|groups|] == groups;
  }

  /** The text written for one conflicted file. */
  function MergeText(currentString: string, newString: string, hunks: seq<Hunk>, newline: string): string {
    Join(Render(GroupsFrom(SplitLines(currentString), SplitLines(newString), hunks, 0)), newline)
  }

  /** Lines 170-238 for one file: split both texts, group, emit, join. */
  method MergeFile(currentString: string, newString: string, hunks: seq<Hunk>, newline: string) returns (text: string)
    ensures text == MergeText(currentString, newString, hunks, newline)
  {
    var currentLines := SplitLines(currentString);
    var newLines := SplitLines(newString);
    var groups := BuildGroups(currentLines, newLines, hunks);
    var mergeFileLines := EmitLines(groups);
    text := Join(mergeFileLines, newline);
  }

  // ---------------------------------------------------------------------
  // Properties of the grouping
  // ---------------------------------------------------------------------

  /** The current-side lines: unchanged runs and the CURRENT half of each block. */
  function CurrentSide(groups: seq<Group>): seq<string>
    decreases |groups|
  {
    if groups == [] then []
    else (match groups[0] case Unchanged(ls) => ls case Change(cur, _) => cur) + CurrentSide(groups[1..])
  }

  /** The upgraded-side lines: unchanged runs and the UPGRADED half of each block. */
  function UpgradedSide(groups: seq<Group>): seq<string>
    decreases |groups|
  {
    if groups == [] then []
    else (match groups[0] case Unchanged(ls) => ls case Change(_, upg) => upg) + UpgradedSide(groups[1..])
  }

  lemma {:induction false} CurrentSideAppend(a: seq<Group>, b: seq<Group>)
    ensures CurrentSide(a + b) == CurrentSide(a) + CurrentSide(b)
    decreases |a|
  {
    if a == [] {
      assert a + b == b;
    } else {
      assert (a + b)[1..] == a[1..] + b;
      CurrentSideAppend(a[1..], b);
    }
  }

  lemma {:induction false} UpgradedSideAppend(a: seq<Group>, b: seq<Group>)
    ensures UpgradedSide(a + b) == UpgradedSide(a) + UpgradedSide(b)
    decreases |a|
  {
    if a == [] {
      assert a + b == b;
    } else {
      assert (a + b)[1..] == a[1..] + b;
      UpgradedSideAppend(a[1..], b);
    }
  }

  lemma {:induction false} RenderAppend(a: seq<Group>, b: seq<Group>)
    ensures Render(a + b) == Render(a) + Render(b)
    decreases |a|
  {
    if a == [] {
      assert a + b == b;
    } else {
      assert (a + b)[1..] == a[1..] + b;
      RenderAppend(a[1..], b);
    }
  }

  /**
   * Hunks that are ordered, non-overlapping and inside the current lines,
   * starting at line index `lastIndex`.
   */
  predicate InRange(current: seq<string>, hunks: seq<Hunk>, lastIndex: int)
    decreases |hunks|
  {
    if hunks == [] then 0 <= lastIndex <= |current|
    else
      var h := hunks[0];
      && 0 <= lastIndex <= h.oldStart - 1
      && 0 <= h.oldLines
      && h.oldStart - 1 + h.oldLines <= |current|
      && InRange(current, hunks[1..], OldEnd(h))
  }

  /**
   * The hunks describe how `upgraded` differs from `current`, from line
   * indices `oldIndex` and `newIndex` on: between hunks the two texts agree
   * line for line, and the trailing runs agree too.
   */
  predicate Describes(current: seq<string>, upgraded: seq<string>, hunks: seq<Hunk>, oldIndex: int, newIndex: int)
    decreases |hunks|
  {
    if hunks == [] then
      0 <= oldIndex <= |current| && 0 <= newIndex <= |upgraded| && current[oldIndex..] == upgraded[newIndex..]
    else
      var h := hunks[0];
      && 0 <= oldIndex <= h.oldStart - 1 && 0 <= h.oldLines && h.oldStart - 1 + h.oldLines <= |current|
      && 0 <= newIndex <= h.newStart - 1 && 0 <= h.newLines && h.newStart - 1 + h.newLines <= |upgraded|
      && current[oldIndex..h.oldStart - 1] == upgraded[newIndex..h.newStart - 1]
      && Describes(current, upgraded, hunks[1..], OldEnd(h), NewEnd(h))
  }

  lemma Slice3<T>(s: seq<T>, a: int, b: int, c: int)
    requires 0 <= a <= b <= c <= |s|
    ensures (s[a..b] + s[b..c]) + s[c..] == s[a..]
  {
    assert s[a..] == s[a..b] + s[b..];
    assert s[b..] == s[b..c] + s[c..];
  }

  lemma UnchangedSides(lines: seq<string>)
    ensures CurrentSide(UnchangedGroup(lines)) == lines
    ensures UpgradedSide(UnchangedGroup(lines)) == lines
  {
    if |lines| > 0 {
      assert CurrentSide(UnchangedGroup(lines)) == lines + [];
      assert UpgradedSide(UnchangedGroup(lines)) == lines + [];
    }
  }

  /** The current side of what one hunk pushes. */
  lemma HunkGroupsCurrent(current: seq<string>, upgraded: seq<string>, h: Hunk, lastIndex: int)
    ensures CurrentSide(HunkGroups(current, upgraded, h, lastIndex))
         == JsSlice(current, lastIndex, h.oldStart - 1) + JsSlice(current, h.oldStart - 1, OldEnd(h))
  {
    var before, change := JsSlice(current, lastIndex, h.oldStart - 1), HunkChange(current, upgraded, h);
    calc {
      CurrentSide(HunkGroups(current, upgraded, h, lastIndex));
      CurrentSide(UnchangedGroup(before) + [change]);
      { CurrentSideAppend(UnchangedGroup(before), [change]); }
      CurrentSide(UnchangedGroup(before)) + CurrentSide([change]);
      { UnchangedSides(before); SingleChangeSides(change); }
      before + change.current;
    }
  }

  lemma SingleChangeSides(g: Group)
    requires g.Change?
    ensures CurrentSide([g]) == g.current && UpgradedSide([g]) == g.upgraded
  {
    assert [g][1..] == [];
  }

  /** The upgraded side of what one hunk pushes. */
  lemma HunkGroupsUpgraded(current: seq<string>, upgraded: seq<string>, h: Hunk, lastIndex: int)
    ensures UpgradedSide(HunkGroups(current, upgraded, h, lastIndex))
         == JsSlice(current, lastIndex, h.oldStart - 1) + JsSlice(upgraded, h.newStart - 1, NewEnd(h))
  {
    var before, change := JsSlice(current, lastIndex, h.oldStart - 1), HunkChange(current, upgraded, h);
    calc {
      UpgradedSide(HunkGroups(current, upgraded, h, lastIndex));
      UpgradedSide(UnchangedGroup(before) + [change]);
      { UpgradedSideAppend(UnchangedGroup(before), [change]); }
      UpgradedSide(UnchangedGroup(before)) + UpgradedSide([change]);
      { UnchangedSides(before); SingleChangeSides(change); }
      before + change.upgraded;
    }
  }

  /** With in-range hunks, every current line appears exactly once, in order, on the current side. */
  lemma {:induction false} CurrentSideIsCurrent(current: seq<string>, upgraded: seq<string>, hunks: seq<Hunk>, lastIndex: int)
    requires InRange(current, hunks, lastIndex)
    ensures CurrentSide(GroupsFrom(current, upgraded, hunks, lastIndex)) == current[lastIndex..]
    decreases |hunks|
  {
    if hunks == [] {
      UnchangedSides(current[lastIndex..]);
    } else {
      var h := hunks[0];
      var rest := GroupsFrom(current, upgraded, hunks[1..], OldEnd(h));
      calc {
        CurrentSide(GroupsFrom(current, upgraded, hunks, lastIndex));
        { CurrentSideAppend(HunkGroups(current, upgraded, h, lastIndex), rest); }
        CurrentSide(HunkGroups(current, upgraded, h, lastIndex)) + CurrentSide(rest);
        { HunkGroupsCurrent(current, upgraded, h, lastIndex);
          CurrentSideIsCurrent(current, upgraded, hunks[1..], OldEnd(h)); }
        (current[lastIndex..h.oldStart - 1] + current[h.oldStart - 1..OldEnd(h)]) + current[OldEnd(h)..];
        { Slice3(current, lastIndex, h.oldStart - 1, OldEnd(h)); }
        current[lastIndex..];
      }
    }
  }

  /** When the hunks describe the diff, the upgraded side is exactly the regenerated lines. */
  lemma {:induction false} UpgradedSideIsUpgraded(current: seq<string>, upgraded: seq<string>, hunks: seq<Hunk>,
                                                  oldIndex: int, newIndex: int)
    requires Describes(current, upgraded, hunks, oldIndex, newIndex)
    ensures UpgradedSide(GroupsFrom(current, upgraded, hunks, oldIndex)) == upgraded[newIndex..]
    decreases |hunks|
  {
    if hunks == [] {
      assert JsSlice(current, oldIndex, |current|) == current[oldIndex..];
      UnchangedSides(current[oldIndex..]);
    } else {
      var h := hunks[0];
      var rest := GroupsFrom(current, upgraded, hunks[1..], OldEnd(h));
      calc {
        UpgradedSide(GroupsFrom(current, upgraded, hunks, oldIndex));
        { UpgradedSideAppend(HunkGroups(current, upgraded, h, oldIndex), rest); }
        UpgradedSide(HunkGroups(current, upgraded, h, oldIndex)) + UpgradedSide(rest);
        { HunkGroupsUpgraded(current, upgraded, h, oldIndex);
          UpgradedSideIsUpgraded(current, upgraded, hunks[1..], OldEnd(h), NewEnd(h)); }
        (current[oldIndex..h.oldStart - 1] + upgraded[h.newStart - 1..NewEnd(h)]) + upgraded[NewEnd(h)..];
        (upgraded[newIndex..h.newStart - 1] + upgraded[h.newStart - 1..NewEnd(h)]) + upgraded[NewEnd(h)..];
        { Slice3(upgraded, newIndex, h.newStart - 1, NewEnd(h)); }
        upgraded[newIndex..];
      }
    }
  }

  /** Unchanged groups are never empty. */
  lemma {:induction false} NoEmptyUnchangedGroup(current: seq<string>, upgraded: seq<string>, hunks: seq<Hunk>, lastIndex: int)
    ensures forall g :: g in GroupsFrom(current, upgraded, hunks, lastIndex) && g.Unchanged? ==> |g.lines| > 0
    decreases |hunks|
  {
    if hunks != [] {
      NoEmptyUnchangedGroup(current, upgraded, hunks[1..], OldEnd(hunks[0]));
    }
  }

  /** Each hunk gives exactly one marker block, in hunk order, holding that hunk's old and new lines. */
  lemma {:induction false} OneBlockPerHunk(current: seq<string>, upgraded: seq<string>, hunks: seq<Hunk>, lastIndex: int)
    ensures |Changes(GroupsFrom(current, upgraded, hunks, lastIndex))| == |hunks|
    ensures forall i :: 0 <= i < |hunks| ==>
      Changes(GroupsFrom(current, upgraded, hunks, lastIndex))[i] == HunkChange(current, upgraded, hunks[i])
    decreases |hunks|
  {
    if hunks != [] {
      var h := hunks[0];
      var rest := GroupsFrom(current, upgraded, hunks[1..], OldEnd(h));
      OneBlockPerHunk(current, upgraded, hunks[1..], OldEnd(h));
      var cs := Changes(GroupsFrom(current, upgraded, hunks, lastIndex));
      HunkChangesCons(current, upgraded, hunks, lastIndex);
      forall i | 0 <= i < |hunks|
        ensures cs[i] == HunkChange(current, upgraded, hunks[i])
      {
        if i > 0 {
          assert cs[i] == Changes(rest)[i - 1] && hunks[1..][i - 1] == hunks[i];
        }
      }
    }
  }

  /** The first hunk contributes exactly its own changed region to the front of the list of changes. */
  lemma HunkChangesCons(current: seq<string>, upgraded: seq<string>, hunks: seq<Hunk>, lastIndex: int)
    requires hunks != []
    ensures Changes(GroupsFrom(current, upgraded, hunks, lastIndex))
         == [HunkChange(current, upgraded, hunks[0])] + Changes(GroupsFrom(current, upgraded, hunks[1..], OldEnd(hunks[0])))
  {
    var h := hunks[0];
    var c := HunkChange(current, upgraded, h);
    var rest := GroupsFrom(current, upgraded, hunks[1..], OldEnd(h));
    ChangesAppend(HunkGroups(current, upgraded, h, lastIndex), rest);
    ChangesAppend(UnchangedGroup(JsSlice(current, lastIndex, h.oldStart - 1)), [c]);
    assert Changes([c]) == [c] + Changes([]);
    assert Changes(UnchangedGroup(JsSlice(current, lastIndex, h.oldStart - 1))) == [];
  }

  /** The changed regions of a group list, in order. */
  function Changes(groups: seq<Group>): seq<Group>
    decreases |groups|
  {
    if groups == [] then []
    else (if groups[0].Change? then [groups[0]] else []) + Changes(groups[1..])
  }

  lemma {:induction false} ChangesAppend(a: seq<Group>, b: seq<Group>)
    ensures Changes(a + b) == Changes(a) + Changes(b)
    decreases |a|
  {
    if a == [] {
      assert a + b == b;
    } else {
      var head := if a[0].Change? then [a[0]] else [];
      assert (a + b)[0] == a[0] && (a + b)[1..] == a[1..] + b;
      calc {
        Changes(a + b);
        head + Changes(a[1..] + b);
        { ChangesAppend(a[1..], b); }
        head + (Changes(a[1..]) + Changes(b));
        { Assoc(head, Changes(a[1..]), Changes(b)); }
        Changes(a) + Changes(b);
      }
    }
  }

  /** With no hunks the file is its own lines rejoined with `newline`. */
  lemma ZeroHunksRejoins(currentString: string, newString: string, newline: string)
    ensures MergeText(currentString, newString, [], newline) == Join(SplitLines(currentString), newline)
  {
    var lines := SplitLines(currentString);
    assert lines[0..] == lines;
    assert JsSlice(lines, 0, |lines|) == lines;
    assert UnchangedGroup(lines) == [Unchanged(lines)];
    assert GroupsFrom(lines, SplitLines(newString), [], 0) == [Unchanged(lines)];
    assert Render([Unchanged(lines)]) == lines + Render([]);
    assert Render([Unchanged(lines)]) == lines;
  }

  /** So a file using "\n" line breaks comes back unchanged. */
  lemma ZeroHunksIdentity(currentString: string, newString: string)
    requires '\r' !in currentString
    ensures MergeText(currentString, newString, [], "\n") == currentString
  {
    ZeroHunksRejoins(currentString, newString, "\n");
    SplitJoinRoundTrip(currentString);
  }

  /** And a file using "\r\n" line breaks comes back unchanged too, its line-break style kept. */
  lemma ZeroHunksCrlfIdentity(currentString: string, newString: string)
    requires CrlfOnly(currentString)
    ensures MergeText(currentString, newString, [], "\r\n") == currentString
  {
    ZeroHunksRejoins(currentString, newString, "\r\n");
    SplitJoinCrlfRoundTrip(currentString);
  }

  // ---------------------------------------------------------------------
  // Writing the conflicted files (lines 163-239)
  // ---------------------------------------------------------------------

  /** `readFile` of a file that does not exist rejects, and the command stops there. */
  datatype WriteError = Missing(path: string)

  /**
   * Where the write phase leaves the live tree: every file written so far
   * stays written, and `error` is the rejection that stopped the loop, if any.
   */
  datatype WriteOutcome = WriteOutcome(files: map<string, string>, error: Option<WriteError>)

  /**
   * The inputs the write phase reads besides the two file trees: the diff
   * hunks between two texts and the line break a text uses.
   */
  datatype DiffTools = DiffTools(hunksOf: (string, string) -> seq<Hunk>, lineBreakOf: string -> string)

  /** Reads both versions of one path and writes the merged text over the live one. */
  function MergeOne(live: map<string, string>, regenerated: map<string, string>, path: string, tools: DiffTools)
    : (r: Result<map<string, string>, WriteError>)
    ensures r.Ok? ==>
      && path in live && path in regenerated
      && r.value == live[path := MergeText(live[path], regenerated[path],
                                           tools.hunksOf(live[path], regenerated[path]),
                                           tools.lineBreakOf(live[path]))]
    ensures r.Err? <==> path !in live || path !in regenerated
  {
    if path !in live then Err(Missing(path))
    else if path !in regenerated then Err(Missing(path))
    else
      var currentString, newString := live[path], regenerated[path];
      Ok(live[path := MergeText(currentString, newString, tools.hunksOf(currentString, newString),
                                tools.lineBreakOf(currentString))])
  }

  /**
   * The loop over the conflicted paths: each write is awaited before the
   * next path is read, so a rejection keeps the files already rewritten.
   */
  function MergeAll(live: map<string, string>, regenerated: map<string, string>,
                    conflicted: seq<Reconcile.ConflictRecord>, tools: DiffTools): WriteOutcome
    decreases |conflicted|
  {
    if conflicted == [] then WriteOutcome(live, None)
    else
      match MergeOne(live, regenerated, conflicted[0].path, tools)
      case Err(e) => WriteOutcome(live, Some(e))
      case Ok(live') => MergeAll(live', regenerated, conflicted[1..], tools)
  }

  /**
   * After the confirmation prompt: nothing is written when it is declined;
   * otherwise each conflicted path in turn gets its merged text, until a
   * missing file stops the loop with the earlier writes in place.
   */
  method WriteConflicts(confirm: bool, live: map<string, string>, regenerated: map<string, string>,
                        conflicted: seq<Reconcile.ConflictRecord>, tools: DiffTools)
    returns (r: WriteOutcome)
    ensures r == if confirm then MergeAll(live, regenerated, conflicted, tools) else WriteOutcome(live, None)
  {
    if !confirm {
      return WriteOutcome(live, None);
    }
    var files := live;
    for i := 0 to |conflicted|
      invariant MergeAll(files, regenerated, conflicted[i..], tools) == MergeAll(live, regenerated, conflicted, tools)
    {
      assert conflicted[i..][1..] == conflicted[i + 1..];
      var path := conflicted[i].path;
      if path !in files {
        return WriteOutcome(files, Some(Missing(path)));
      }
      if path !in regenerated {
        return WriteOutcome(files, Some(Missing(path)));
      }
      var currentString, newString := files[path], regenerated[path];
      var text := MergeFile(currentString, newString, tools.hunksOf(currentString, newString),
                            tools.lineBreakOf(currentString));
      files := files[path := text];
    }
    assert conflicted[|conflicted|..] == [];
    r := WriteOutcome(files, None);
  }

  /**
   * However the loop ends, no file appears or disappears and only conflicted
   * paths change.
   */
  lemma {:induction false} MergeAllFrame(live: map<string, string>, regenerated: map<string, string>,
                                         conflicted: seq<Reconcile.ConflictRecord>, tools: DiffTools, p: string)
    ensures MergeAll(live, regenerated, conflicted, tools).files.Keys == live.Keys
    ensures (forall c :: c in conflicted ==> c.path != p) ==>
      p in live ==> MergeAll(live, regenerated, conflicted, tools).files[p] == live[p]
    decreases |conflicted|
  {
    if conflicted != [] && MergeOne(live, regenerated, conflicted[0].path, tools).Ok? {
      var live' := MergeOne(live, regenerated, conflicted[0].path, tools).value;
      assert forall c :: c in conflicted[1..] ==> c in conflicted;
      MergeAllFrame(live', regenerated, conflicted[1..], tools, p);
    }
  }

  /**
   * The loop runs to the end exactly when every conflicted path exists in
   * both trees: a remove conflict, whose path was not regenerated, stops it.
   */
  lemma {:induction false} MergeAllNeedsBothFiles(live: map<string, string>, regenerated: map<string, string>,
                                                  conflicted: seq<Reconcile.ConflictRecord>, tools: DiffTools)
    ensures MergeAll(live, regenerated, conflicted, tools).error.None? <==>
      forall c :: c in conflicted ==> c.path in live && c.path in regenerated
    decreases |conflicted|
  {
    if conflicted != [] {
      assert forall c :: c in conflicted <==> c == conflicted[0] || c in conflicted[1..];
      var r := MergeOne(live, regenerated, conflicted[0].path, tools);
      if r.Ok? {
        MergeAllFrame(r.value, regenerated, conflicted[1..], tools, "");
        MergeAllNeedsBothFiles(r.value, regenerated, conflicted[1..], tools);
      }
    }
  }

  /**
   * When the first path missing from either tree is the `k`-th, the loop
   * stops with that path's error, and the tree is exactly the one left by
   * writing the `k` paths before it: those are rewritten, no later one is.
   */
  lemma {:induction false} MergeAllStopsAtFirstMissing(live: map<string, string>, regenerated: map<string, string>,
                                                       conflicted: seq<Reconcile.ConflictRecord>, tools: DiffTools, k: nat)
    requires k < |conflicted|
    requires forall i :: 0 <= i < k ==> conflicted[i].path in live && conflicted[i].path in regenerated
    requires conflicted[k].path !in live || conflicted[k].path !in regenerated
    ensures MergeAll(live, regenerated, conflicted[..k], tools).error.None?
    ensures MergeAll(live, regenerated, conflicted, tools)
         == WriteOutcome(MergeAll(live, regenerated, conflicted[..k], tools).files, Some(Missing(conflicted[k].path)))
    decreases k
  {
    if k > 0 {
      var live' := MergeOne(live, regenerated, conflicted[0].path, tools).value;
      MergeAllFrame(live, regenerated, conflicted[..1], tools, "");
      assert live'.Keys == live.Keys;
      assert conflicted[..k][1..] == conflicted[1..][..k - 1];
      MergeAllStopsAtFirstMissing(live', regenerated, conflicted[1..], tools, k - 1);
    }
  }

  /**
   * An update conflict on `a` followed by a remove conflict on `b`: the
   * rejection on `b` comes after `a` was rewritten, and `b` is left as it was.
   */
  lemma RemoveAfterUpdateKeepsUpdate(tools: DiffTools)
    ensures MergeAll(map["a" := "x", "b" := "y"], map["a" := "z"],
                     [Reconcile.ConflictRecord(Reconcile.Update, "a", None, None),
                      Reconcile.ConflictRecord(Reconcile.Remove, "b", None, None)], tools)
         == WriteOutcome(map["a" := MergeText("x", "z", tools.hunksOf("x", "z"), tools.lineBreakOf("x")), "b" := "y"],
                         Some(Missing("b")))
  {
  }
}
