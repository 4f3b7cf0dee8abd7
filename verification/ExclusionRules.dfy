/**
 The rule edits of src/project-git-exclusion.mjs: each reads the exclude file,
 computes the new text and replaces exactly the generation it read, or tries again.
 */
module ExclusionRules {
  import opened Wrappers
  import opened ExclusionText
  import opened FileWorld
  import opened HostCalls
  import opened PreparationFile
  import opened GitExclusion

  // ------------------------------------------------------------ the texts

  /** `lines.splice(lines.indexOf(rule), 1)`, when the rule is there. */
  function WithoutFirst(lines: seq<Text>, rule: Text): seq<Text> {
    if lines == [] then []
    else if lines[0] == rule then lines[1..]
    else [lines[0]] + WithoutFirst(lines[1..], rule)
  }

  function WithoutEach(lines: seq<Text>, rules: seq<Text>): seq<Text>
    decreases |rules|
  {
    if rules == [] then lines else WithoutEach(WithoutFirst(lines, rules[0]), rules[1..])
  }

  function RemovedText(text: Text, marker: Option<Text>, rules: seq<Text>): Removal {
    if marker.Some? then RemoveBlock(text, marker.value, rules)
    else
      var kept := Join(WithoutEach(Split(text), rules));
      if kept == text then Unchanged else Changed(kept)
  }

  function Added(text: Text, rules: seq<Text>): seq<Text> {
    if rules == [] then []
    else (if rules[0] in Split(text) then [] else [rules[0]]) + Added(text, rules[1..])
  }

  function AppendedText(text: Text, marker: Option<Text>, rules: seq<Text>): Text {
    if marker.Some? then AppendBlock(text, marker.value, rules)
    else text + (if EndsLine(text) || text == "" then "" else ['\n']) + (Join(rules) + ['\n'])
  }

  predicate StartsWith(text: Text, prefix: Text) {
    prefix <= text
  }

  /** What `appendProjectGitExcludeRules` demands of its options; a rule may hold a newline. */
  predicate RulesAccepted(marker: Option<Text>, rules: seq<Text>) {
    && rules != []
    && (forall j, k :: 0 <= j < k < |rules| ==> rules[j] != rules[k])
    && (forall k :: 0 <= k < |rules| ==> StartsWith(rules[k], "/") && '\0' !in rules[k])
    && (marker.Some? ==> StartsWith(marker.value, "# ") && '\n' !in marker.value && '\0' !in marker.value)
  }

  lemma {:induction false} AddedAreNew(text: Text, rules: seq<Text>)
    ensures forall rule :: rule in Added(text, rules) <==> rule in rules && rule !in Split(text)
  {
    if rules != [] { AddedAreNew(text, rules[1..]); }
  }

  lemma {:induction false} FirstGone(lines: seq<Text>, rule: Text, other: Text)
    ensures Count(WithoutFirst(lines, rule), other)
         == if other == rule && rule in lines then Count(lines, other) - 1 else Count(lines, other)
  {
    if lines != [] {
      CountAppend([lines[0]], lines[1..], other);
      assert [lines[0]] + lines[1..] == lines;
      assert Count([lines[0]], other) == if lines[0] == other then 1 else 0 by {
        assert [lines[0]][..0] == [];
      }
      CountAbsent(lines, other);
      if lines[0] != rule {
        FirstGone(lines[1..], rule, other);
        CountAppend([lines[0]], WithoutFirst(lines[1..], rule), other);
      }
    }
  }

  /** Without a marker, each owned rule loses one occurrence at most and no other line is touched. */
  lemma {:induction false} EachGone(lines: seq<Text>, rules: seq<Text>, line: Text)
    requires forall j, k :: 0 <= j < k < |rules| ==> rules[j] != rules[k]
    ensures Count(WithoutEach(lines, rules), line)
         == if line in rules && line in lines then Count(lines, line) - 1 else Count(lines, line)
    decreases |rules|
  {
    if rules != [] {
      var next := WithoutFirst(lines, rules[0]);
      EachGone(next, rules[1..], line);
      FirstGone(lines, rules[0], line);
      CountAbsent(lines, line);
      CountAbsent(next, line);
      assert line in rules <==> line == rules[0] || line in rules[1..];
    }
  }

  // ------------------------------------------- what the texts come down to

  function MarkerLine(marker: Option<Text>): seq<Text> {
    if marker.Some? then [marker.value] else []
  }

  /** The lines of the rules, one after the other; a rule may have several. */
  function RuleLines(rules: seq<Text>): seq<Text> {
    if rules == [] then [] else Split(rules[0]) + RuleLines(rules[1..])
  }

  /**
   The old text is there from the beginning, and its lines are followed by the marker,
   if there is one, the lines of the rules, and the end of the last line: this
   determines the new text.
   */
  ghost predicate AppendedTo(original: Text, next: Text, marker: Option<Text>, rules: seq<Text>) {
    original <= next && Split(next) == BodyLines(original) + MarkerLine(marker) + RuleLines(rules) + [[]]
  }

  lemma {:induction false} SplitJoinRules(rules: seq<Text>)
    requires rules != []
    ensures Split(Join(rules)) == RuleLines(rules)
    decreases |rules|
  {
    if |rules| > 1 {
      SplitJoinRules(rules[1..]);
      SplitAppend(rules[0], Join(rules[1..]));
    }
  }

  lemma {:induction false} PlainRuleLines(rules: seq<Text>)
    requires forall k :: 0 <= k < |rules| ==> OneLine(rules[k])
    ensures RuleLines(rules) == rules
  {
    if rules != [] {
      SplitLine(rules[0]);
      PlainRuleLines(rules[1..]);
    }
  }

  /** With a marker or without, and whatever the old text ends in. */
  lemma AppendKeepsText(original: Text, marker: Option<Text>, rules: seq<Text>)
    requires rules != [] && (marker.Some? ==> OneLine(marker.value))
    ensures AppendedTo(original, AppendedText(original, marker, rules), marker, rules)
    ensures forall next :: AppendedTo(original, next, marker, rules) ==> next == AppendedText(original, marker, rules)
  {
    hide Split, Join, EndsLine;
    var block := MarkerLine(marker) + rules;
    BlockLines(original, Join(block));
    SplitJoinRules(block);
    SplitJoinRules(rules);
    if marker.Some? {
      SplitLine(marker.value);
      assert block[1..] == rules;
    } else {
      assert block == rules;
    }
    Associate(BodyLines(original), MarkerLine(marker), RuleLines(rules));
    forall next | AppendedTo(original, next, marker, rules) ensures next == AppendedText(original, marker, rules) {
      JoinSplit(next);
      JoinSplit(AppendedText(original, marker, rules));
      assert Split(next) == Split(AppendedText(original, marker, rules));
    }
  }

  /** The first line that is the rule goes, and only it. */
  lemma {:induction false} FirstIsRemoved(lines: seq<Text>, rule: Text, at: nat)
    requires at < |lines| && lines[at] == rule && rule !in lines[..at]
    ensures WithoutFirst(lines, rule) == lines[..at] + lines[at + 1..]
  {
    if at > 0 {
      assert lines[..at][0] == lines[0];
      assert lines[1..][..at - 1] == lines[..at][1..];
      FirstIsRemoved(lines[1..], rule, at - 1);
      assert lines[1..][at..] == lines[at + 1..];
      assert [lines[0]] + lines[1..][..at - 1] == lines[..at];
    }
  }

  lemma {:induction false} NothingRemoved(lines: seq<Text>, rule: Text)
    requires rule !in lines
    ensures WithoutFirst(lines, rule) == lines
  {
    if lines != [] { NothingRemoved(lines[1..], rule); }
  }

  lemma {:induction false} NoneRemoved(lines: seq<Text>, rules: seq<Text>)
    requires forall rule :: rule in rules ==> rule !in lines
    ensures WithoutEach(lines, rules) == lines
    decreases |rules|
  {
    if rules != [] {
      NothingRemoved(lines, rules[0]);
      NoneRemoved(lines, rules[1..]);
    }
  }

  lemma {:induction false} FewerLines(lines: seq<Text>, rule: Text)
    ensures |WithoutFirst(lines, rule)| == if rule in lines then |lines| - 1 else |lines|
    ensures forall line :: line in WithoutFirst(lines, rule) ==> line in lines
    ensures forall line :: line in lines && line != rule ==> line in WithoutFirst(lines, rule)
  {
    if lines != [] && lines[0] != rule { FewerLines(lines[1..], rule); }
  }

  lemma {:induction false} FewerOfEach(lines: seq<Text>, rules: seq<Text>)
    ensures |WithoutEach(lines, rules)| <= |lines|
    ensures (exists rule :: rule in rules && rule in lines) ==> |WithoutEach(lines, rules)| < |lines|
    ensures forall line :: line in WithoutEach(lines, rules) ==> line in lines
    decreases |rules|
  {
    if rules != [] {
      var next := WithoutFirst(lines, rules[0]);
      FewerLines(lines, rules[0]);
      FewerOfEach(next, rules[1..]);
      if rules[0] !in lines { NothingRemoved(lines, rules[0]); }
    }
  }

  /** Without a marker, the text stays exactly if no owned rule is a line of it. */
  lemma UnmarkedRemovalIff(text: Text, rules: seq<Text>)
    ensures RemovedText(text, None, rules).Unchanged? <==> text == "" || forall rule :: rule in rules ==> rule !in Split(text)
    ensures RemovedText(text, None, rules) != Collision
  {
    var lines := Split(text);
    JoinSplit(text);
    SplitLines(text);
    FewerOfEach(lines, rules);
    var kept := WithoutEach(lines, rules);
    if forall rule :: rule in rules ==> rule !in lines {
      NoneRemoved(lines, rules);
    } else if text == "" {
      assert kept == [];
    } else {
      assert Join([""]) == "";
      forall k | 0 <= k < |kept| ensures OneLine(kept[k]) {
        assert kept[k] in lines;
      }
      hide Split, Join, WithoutEach;
      JoinDiffers(kept, lines);
    }
  }

  lemma {:induction false} BlockRemoved(before: seq<Text>, rules: seq<Text>, after: seq<Text>)
    requires forall rule :: rule in rules ==> rule !in before
    ensures WithoutEach(before + rules + after, rules) == before + after
    decreases |rules|
  {
    var lines := before + rules + after;
    if rules == [] {
      assert lines == before + after;
    } else {
      FirstIsRemoved(lines, rules[0], |before|) by {
        assert lines[..|before|] == before && lines[|before|] == rules[0];
      }
      assert lines[..|before|] + lines[|before| + 1..] == before + rules[1..] + after;
      BlockRemoved(before, rules[1..], after);
    }
  }

  /**
   Without a marker too, what was appended can be removed again: nothing is left but a
   newline added to an unterminated text, if each rule is one line and was not there.
   */
  lemma UnmarkedRoundTrip(original: Text, rules: seq<Text>)
    requires rules != [] && forall k :: 0 <= k < |rules| ==> OneLine(rules[k]) && rules[k] !in Split(original)
    ensures RemovedText(AppendedText(original, None, rules), None, rules)
         == Changed(if original == "" || EndsLine(original) then original else original + ['\n'])
  {
    hide Split, Join, EndsLine, WithoutEach;
    var next := AppendedText(original, None, rules);
    var body := BodyLines(original);
    AppendKeepsText(original, None, rules);
    PlainRuleLines(rules);
    assert body + [] == body;
    BodyLinesAreLines(original);
    forall rule | rule in rules ensures rule !in body { }
    BlockRemoved(body, rules, [[]]);
    RestoredLines(original);
    UnmarkedRemovalIff(next, rules);
    assert Split(next)[|body|] == rules[0];
    assert rules[0] in rules && rules[0] in Split(next);
    NotEmptied(next, rules[0]);
  }

  lemma NotEmptied(text: Text, line: Text)
    requires line in Split(text) && |Split(text)| > 1
    ensures text != ""
  {
    assert Split("") == [""];
  }

  // ------------------------------------------------------------ the edits

  function RewriteHistory(prefix: seq<Event>, t: Id, i: Inode, original: Text, source: Option<Text>, c: Inode): seq<Event> {
    prefix + PuttingEvents(t, source, c) + ConcludeEvents(t, i, original)
  }

  /** The last thing done: a generation with text `original` was swapped for `source`. */
  ghost predicate Rewrote(before: seq<Event>, after: seq<Event>, t: Id, original: Text, source: Option<Text>) {
    exists prefix: seq<Event>, i: Inode, c: Inode ::
      before <= prefix && after == RewriteHistory(prefix, t, i, original, source, c)
  }

  lemma CommitRewrites(a: Fs, before: seq<Event>, middle: seq<Event>, after: seq<Event>, t: Id,
      expected: Reading, source: Option<Text>)
    requires before <= middle && Committed(a, middle, after, t, expected, source)
    ensures expected.Found? && Rewrote(before, after, t, expected.text, source)
  {
    var c :| c !in a.data && after == CommitHistory(a, middle, t, expected, source, c);
    var prefix := middle + TakingEvents(a, t, expected);
    assert after == RewriteHistory(prefix, t, expected.inode, expected.text, source, c);
  }

  /** A Host was lost after it had published a new generation and before it gave up the old one. */
  ghost predicate Unfinished(fs: Fs, t: Id) {
    && WellFormed(fs) && Interrupted(fs, t) && CandidateShown(fs, t) && Sealed(fs, SlotFile(fs, ReplaceDir(t)).value)
    && TempDir(t) !in fs.caps && fs.names[Public] !in fs.open
  }

  /** The new generation stays, and nothing is left of the replacement. */
  function CarriedOut(fs: Fs, t: Id): Fs {
    WithoutTemp(WithoutCap(fs, ReplaceDir(t)), t)
  }

  lemma UnfinishedRecovers(fs: Fs, t: Id)
    requires Unfinished(fs, t)
    ensures Interrupted(fs, t) && CandidateShown(fs, t) && Sealed(fs, SlotFile(fs, ReplaceDir(t)).value)
    ensures OwnTemporary(WithoutCap(fs, ReplaceDir(t)), t)
    ensures CarriedOut(fs, t) == WithoutTemp(WithoutCap(fs, ReplaceDir(t)), t) && !Clean(fs, t)
  {
    hide Links;
    assert fs.temps[t] in fs.temps.Values;
    FewerCapsFewerLinks(fs, ReplaceDir(t), fs.names[Public]);
  }

  lemma FewerCapsFewerLinks(fs: Fs, d: Dir, i: Inode)
    ensures Links(WithoutCap(fs, d), i) <= Links(fs, i)
  {
    hide Links, Outside;
    LinksAre(fs, d, i);
    LinksAre(WithoutCap(fs, d), d, i);
    OutsideStays(fs, WithoutCap(fs, d), d, i);
  }

  lemma CleanIsNothing(fs: Fs, t: Id)
    ensures Clean(fs, t) <==> NothingLeft(fs, t) && NoTemporary(fs, t)
  {
  }

  /** Nothing is left over, and the public file can be replaced. */
  ghost predicate Editable(fs: Fs, t: Id) {
    Clean(fs, t) && Mergeable(fs, t)
  }

  lemma EditableGives(fs: Fs, t: Id)
    requires Editable(fs, t)
    ensures Clean(fs, t) && Mergeable(fs, t) && Ready(fs, t) && Reads(fs, PublicFile, 1) == Done(PublicReading(fs))
    ensures PublicReading(fs).Found? && PublicReading(fs).text == PublicText(fs)
  {
    hide Links;
  }

  /** Nothing is left over, and there is no public file. */
  ghost predicate Vacant(fs: Fs, t: Id) {
    Clean(fs, t) && NothingToReplace(fs, t)
  }

  lemma VacantGives(fs: Fs, t: Id)
    requires Vacant(fs, t)
    ensures Clean(fs, t) && NothingToReplace(fs, t) && Reads(fs, PublicFile, 1) == Done(Missing)
  {
  }

  /** All names are as they were; files may have been written that have none. */
  ghost predicate SameNames(a: Fs, b: Fs) {
    b == a.(data := b.data) && a.data.Keys <= b.data.Keys && forall i :: i in a.data ==> b.data[i] == a.data[i]
  }

  /** An empty file lacks every rule that starts with a slash. */
  lemma AddedToNothing(rules: seq<Text>)
    requires rules != [] && forall k :: 0 <= k < |rules| ==> StartsWith(rules[k], "/")
    ensures Added("", rules) != []
  {
    assert Split("") == [""];
    assert rules[0][0] == '/';
  }

  lemma WrittenStaysVacant(a: Fs, b: Fs, c: Fs, t: Id, text: Text)
    requires Vacant(b, t) && SameNames(a, b) && OnlyWritten(b, c, text)
    ensures Vacant(c, t) && SameNames(a, c)
  {
  }

  lemma SameNamesSelf(a: Fs)
    ensures SameNames(a, a)
  {
  }

  /** The public file was swapped, and can be again. */
  lemma SwappedIsEditable(a: Fs, b: Fs, t: Id, text: Text)
    requires Editable(a, t) && Swapped(a, b, Some(text))
    ensures Editable(b, t) && PublicText(b) == text && OnlyPublicChanged(a, b)
  {
    hide Mergeable, PublicText;
    SwappedIsMergeable(a, b, t, text);
  }

  /** A durable caller finishes what an earlier Host left before it edits. */
  method Resume(h: Host, t: Id, fuel: nat) returns (r: Run<bool>)
    requires h.Valid()
    modifies h
    ensures h.Valid() && KeepTree(old(h.fs), h.fs, t) && InTree(old(h.trace), h.trace, t)
    ensures r.Done? ==> SlotFile(h.fs, ReplaceDir(t)).None? && SlotFile(h.fs, RollbackDir(t)).None?
    ensures h.calm && old(Clean(h.fs, t)) ==> r.Done? && h.fs == old(h.fs)
    ensures h.calm && fuel > 0 && old(Unfinished(h.fs, t)) ==> r.Done? && h.fs == old(CarriedOut(h.fs, t))
  {
    hide Rely, FileWorld.Valid, Secluded, Shut, KeepTree, InTree, Ended, Sealed, Interrupted, CandidateShown,
      NothingShown, RecoversBeside, NeverRecovers, Removable, Resumable, OwnTemporary, NoTemporary, WithoutTemp,
      WithoutCap, Unfinished, CarriedOut, NothingLeft, ResumedFs, PublicText, AllKept, OnlyPublicChanged, Links,
      Explained, SupersededAs;
    CleanIsNothing(h.fs, t);
    if Unfinished(h.fs, t) { UnfinishedRecovers(h.fs, t); }
    var recovered: Run<bool>;
    ghost var file, verdict;
    recovered, file, verdict := RecoverReplacement(h, t, 0, fuel, Known(false, map[]));
    var _ :- recovered;
    ghost var fs1, trace1 := h.fs, h.trace;
    r := RemoveTemporaryFile(h, t, None);
    KeepsInTree(fs1, h.fs, TempDir(t), t);
    KeepsElse(fs1, h.fs, t);
    KeepTreeTrans(old(h.fs), fs1, h.fs, t);
    InTreeTrans(old(h.trace), trace1, h.trace, t);
  }

  lemma KeepsElse(a: Fs, b: Fs, t: Id)
    requires Keeps(a, b, TempDir(t))
    ensures Lookup(b.caps, ReplaceDir(t)) == Lookup(a.caps, ReplaceDir(t))
    ensures Lookup(b.caps, RollbackDir(t)) == Lookup(a.caps, RollbackDir(t))
  {
  }

  /** A public read outside the retry loops allows one link only. */
  method ReadCurrent(h: Host, t: Id, ghost start: Fs, ghost before: seq<Event>) returns (r: Run<Reading>)
    requires h.Valid() && KeepTree(start, h.fs, t) && InTree(before, h.trace, t)
    modifies h
    ensures h.Valid() && KeepTree(start, h.fs, t) && InTree(before, h.trace, t)
    ensures r.Done? && r.value.Found? ==> h.trace == old(h.trace) + [Saw(r.value.inode, r.value.text)]
    ensures h.calm ==> h.fs == old(h.fs) && r == Reads(h.fs, PublicFile, 1)
  {
    hide Rely, FileWorld.Valid, Secluded, Shut, Reads;
    r := h.ReadFile(PublicFile, 1);
    ReadKeeps(start, old(h.fs), h.fs, t);
    SawInTree(before, old(h.trace), h.trace, t);
  }

  /**
   `removeProjectGitExcludeRulesAtPath`. `true`: the generation `current`, and no
   other, was replaced by its text without the owned rules. `false`: the text last
   read holds nothing to remove.
   */
  method RemoveRules(h: Host, t: Id, resume: bool, marker: Option<Text>, rules: seq<Text>, removeWhenEmpty: bool, fuel: nat)
    returns (r: Run<bool>, current: Reading)
    requires h.Valid()
    modifies h
    ensures h.Valid() && KeepTree(old(h.fs), h.fs, t) && InTree(old(h.trace), h.trace, t)
    ensures r.Done? && r.value ==> current.Found? && RemovedText(current.text, marker, rules).Changed?
    ensures r.Done? && r.value ==>
      var next := RemovedText(current.text, marker, rules).text;
      Rewrote(old(h.trace), h.trace, t, current.text, if removeWhenEmpty && next == "" then None else Some(next))
    ensures r.Done? && !r.value && current.Found? ==>
      && RemovedText(current.text, marker, rules).Unchanged?
      && h.trace != [] && h.trace[|h.trace| - 1] == Saw(current.inode, current.text)
    ensures h.calm && old(Vacant(h.fs, t)) ==> r == Done(false) && h.fs == old(h.fs)
    ensures h.calm && old(Editable(h.fs, t)) ==>
      match RemovedText(old(PublicText(h.fs)), marker, rules)
      case Unchanged => r == Done(false) && h.fs == old(h.fs)
      case Collision => r == Threw(CollisionCode) && h.fs == old(h.fs)
      case Changed(next) =>
        r == Done(true) && Swapped(old(h.fs), h.fs, if removeWhenEmpty && next == "" then None else Some(next))
  {
    current := Missing;
    hide Rely, FileWorld.Valid, Secluded, Shut, KeepTree, InTree, Committed, Undone, RemovedText, Editable, PublicText,
      PublicReading, Swapped, Reads, Clean, Ready, Mergeable, Unfinished, Vacant, NothingToReplace;
    if Vacant(h.fs, t) { VacantGives(h.fs, t); }
    if Editable(h.fs, t) { EditableGives(h.fs, t); }
    TreeStart(h.fs, h.trace, t);
    if resume {
      var _ :- Resume(h, t, fuel);
    }
    var attempt := 0;
    while attempt < COMMIT_ATTEMPTS
      invariant h.Valid() && KeepTree(old(h.fs), h.fs, t) && InTree(old(h.trace), h.trace, t)
      invariant h.calm && old(Editable(h.fs, t) || Vacant(h.fs, t)) ==> attempt == 0 && h.fs == old(h.fs)
      decreases COMMIT_ATTEMPTS - attempt
    {
      current :- ReadCurrent(h, t, old(h.fs), old(h.trace));
      if current.Missing? { r := Done(false); return; }
      var removal := RemovedText(current.text, marker, rules);
      if removal.Unchanged? { r := Done(false); return; }
      if removal.Collision? { r := Threw(CollisionCode); return; }
      var source := if removeWhenEmpty && removal.text == "" then None else Some(removal.text);
      var replaced := ReplaceInTree(h, current, source, t, fuel, old(h.fs), old(h.trace));
      var committed :- replaced;
      if committed { r := Done(true); return; }
      attempt := attempt + 1;
    }
    r := Threw(CollisionCode);
  }

  /** One attempt, seen from the start of the edit. */
  method ReplaceInTree(h: Host, current: Reading, source: Option<Text>, t: Id, fuel: nat,
      ghost start: Fs, ghost before: seq<Event>)
    returns (r: Run<bool>)
    requires h.Valid() && KeepTree(start, h.fs, t) && InTree(before, h.trace, t)
    modifies h
    ensures h.Valid() && KeepTree(start, h.fs, t) && InTree(before, h.trace, t)
    ensures r.Done? && r.value ==> current.Found? && Rewrote(before, h.trace, t, current.text, source)
    ensures h.calm && old(Ready(h.fs, t)) && current == old(PublicReading(h.fs)) && current.Found? ==>
      r == Done(true) && Swapped(old(h.fs), h.fs, source)
    ensures h.calm && fuel > 0 && old(NothingToReplace(h.fs, t)) && current.Missing? ==>
      r == Done(false) && OnlyWritten(old(h.fs), h.fs, source.GetOr(""))
  {
    hide Rely, FileWorld.Valid, Secluded, Shut, KeepTree, InTree, Committed, Undone, Rewrote, Ready, PublicReading,
      Swapped, NothingToReplace, OnlyWritten;
    ghost var fs1, trace1 := h.fs, h.trace;
    InTreeExtends(before, trace1, t);
    r := Replace(h, current, source, t, 0, fuel);
    KeepTreeTrans(start, fs1, h.fs, t);
    InTreeTrans(before, trace1, h.trace, t);
    if r.Done? && r.value {
      CommitRewrites(fs1, before, trace1, h.trace, t, current, source);
    }
  }

  /**
   `appendProjectGitExcludeRules`. `true`: the generation `current` was replaced by
   its text followed by the rules it lacked; a missing file is never replaced.
   `false`: the text last read already has every rule.
   */
  method AppendRules(h: Host, t: Id, resume: bool, marker: Option<Text>, rules: seq<Text>, fuel: nat)
    returns (r: Run<bool>, current: Reading)
    requires h.Valid()
    modifies h
    ensures h.Valid() && KeepTree(old(h.fs), h.fs, t) && InTree(old(h.trace), h.trace, t)
    ensures r.Done? && r.value ==> current.Found? && Added(current.text, rules) != []
    ensures r.Done? && r.value ==>
      exists next ::
        && Rewrote(old(h.trace), h.trace, t, current.text, Some(next))
        && AppendedTo(current.text, next, marker, Added(current.text, rules))
    ensures r.Done? && !r.value ==> Added(TextOf(current), rules) == []
    ensures r.Done? ==> RulesAccepted(marker, rules)
    ensures h.calm && fuel > 0 && old(Vacant(h.fs, t)) && RulesAccepted(marker, rules) ==>
      r == Threw(CollisionCode) && SameNames(old(h.fs), h.fs)
    ensures h.calm && old(Editable(h.fs, t)) && RulesAccepted(marker, rules) ==>
      var added := Added(old(PublicText(h.fs)), rules);
      if added == [] then r == Done(false) && h.fs == old(h.fs)
      else
        && r == Done(true) && Editable(h.fs, t) && OnlyPublicChanged(old(h.fs), h.fs)
        && AppendedTo(old(PublicText(h.fs)), PublicText(h.fs), marker, added)
  {
    hide Rely, FileWorld.Valid, Secluded, Shut, KeepTree, InTree, Committed, Undone, AppendedText, Editable, PublicText,
      PublicReading, Swapped, Reads, Clean, Ready, Mergeable, OnlyPublicChanged, AppendedTo, Unfinished, Vacant,
      NothingToReplace, SameNames, OnlyWritten;
    current := Missing;
    TreeStart(h.fs, h.trace, t);
    if !RulesAccepted(marker, rules) { r := Threw(FailedCode); return; }
    SameNamesSelf(h.fs);
    AddedToNothing(rules);
    if Vacant(h.fs, t) { VacantGives(h.fs, t); }
    if Editable(h.fs, t) { EditableGives(h.fs, t); }
    if resume {
      var _ :- Resume(h, t, fuel);
    }
    var attempt := 0;
    while attempt < COMMIT_ATTEMPTS
      invariant h.Valid() && KeepTree(old(h.fs), h.fs, t) && InTree(old(h.trace), h.trace, t)
      invariant h.calm && fuel > 0 && old(Vacant(h.fs, t)) ==> Vacant(h.fs, t) && SameNames(old(h.fs), h.fs)
      invariant h.calm && old(Editable(h.fs, t)) ==> attempt == 0 && h.fs == old(h.fs)
      decreases COMMIT_ATTEMPTS - attempt
    {
      ghost var fs1 := h.fs;
      if Vacant(fs1, t) { VacantGives(fs1, t); }
      current :- ReadCurrent(h, t, old(h.fs), old(h.trace));
      var added := Added(TextOf(current), rules);
      if added == [] { r := Done(false); return; }
      var source := AppendedText(TextOf(current), marker, added);
      var replaced := ReplaceInTree(h, current, Some(source), t, fuel, old(h.fs), old(h.trace));
      var committed :- replaced;
      if h.calm && fuel > 0 && old(Vacant(h.fs, t)) { WrittenStaysVacant(old(h.fs), fs1, h.fs, t, source); }
      if committed {
        if h.calm && old(Editable(h.fs, t)) { SwappedIsEditable(old(h.fs), h.fs, t, source); }
        AppendKeepsText(current.text, marker, added);
        r := Done(true);
        return;
      }
      attempt := attempt + 1;
    }
    r := Threw(CollisionCode);
  }
}
