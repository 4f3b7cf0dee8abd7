/**
 The text half of src/project-git-exclusion.mjs: which generations a merged
 exclude file still contains line for line, and the marked rule block that a
 preparation appends and later removes.
 */
module ExclusionText {
  import opened Wrappers

  type Text = string

  // ---------------------------------------------------------------- lines

  /** `split("\n")`: one more line than there are newlines. */
  function Split(s: Text): (lines: seq<Text>)
    ensures |lines| >= 1
  {
    if |s| == 0 then [[]]
    else
      var rest := Split(s[1..]);
      if s[0] == '\n' then [[]] + rest else rest[0 := [s[0]] + rest[0]]
  }

  /** `join("\n")`. */
  function Join(lines: seq<Text>): Text {
    if |lines| == 0 then ""
    else if |lines| == 1 then lines[0]
    else lines[0] + ['\n'] + Join(lines[1..])
  }

  lemma {:induction false} SplitLines(s: Text)
    ensures forall k :: 0 <= k < |Split(s)| ==> '\n' !in Split(s)[k]
  {
    if s != "" { SplitLines(s[1..]); }
  }

  predicate EndsLine(s: Text) {
    |s| > 0 && s[|s| - 1] == '\n'
  }

  lemma {:induction false} SplitAppend(a: Text, b: Text)
    ensures Split(a + ['\n'] + b) == Split(a) + Split(b)
  {
    var whole := a + ['\n'] + b;
    if |a| == 0 {
      assert whole[1..] == b;
    } else {
      SplitAppend(a[1..], b);
      assert whole[1..] == a[1..] + ['\n'] + b;
      assert whole[0] == a[0];
    }
  }

  lemma {:induction false} SplitLine(line: Text)
    requires '\n' !in line
    ensures Split(line) == [line]
  {
    if line != "" {
      assert '\n' !in line[1..];
      SplitLine(line[1..]);
      assert [line[0]] + line[1..] == line;
    }
  }

  /** `split` undoes `join` on lines that hold no newline. */
  lemma {:induction false} SplitJoin(lines: seq<Text>)
    requires |lines| >= 1
    requires forall k :: 0 <= k < |lines| ==> '\n' !in lines[k]
    ensures Split(Join(lines)) == lines
  {
    SplitLine(lines[0]);
    if |lines| == 1 {
    } else {
      SplitJoin(lines[1..]);
      SplitAppend(lines[0], Join(lines[1..]));
      assert [lines[0]] + lines[1..] == lines;
    }
  }

  /** `join` undoes `split` on every text. */
  lemma {:induction false} JoinSplit(s: Text)
    ensures Join(Split(s)) == s
  {
    if s == "" {
    } else {
      JoinSplit(s[1..]);
      var rest := Split(s[1..]);
      if s[0] == '\n' {
        assert ([""] + rest)[1..] == rest;
        assert Join(Split(s)) == "" + ['\n'] + Join(rest);
        assert ['\n'] + s[1..] == s;
      } else {
        var lines := [[s[0]] + rest[0]] + rest[1..];
        assert lines[1..] == rest[1..];
        assert Join(lines) == [s[0]] + Join(rest);
        assert [s[0]] + s[1..] == s;
      }
    }
  }

  function WithoutNewline(s: Text): Text
    requires EndsLine(s)
  {
    s[..|s| - 1]
  }

  lemma SplitEndsLine(s: Text)
    requires EndsLine(s)
    ensures Split(s) == Split(WithoutNewline(s)) + [[]]
  {
    SplitAppend(WithoutNewline(s), []);
    assert WithoutNewline(s) + ['\n'] + [] == s;
  }

  // ------------------------------------------------------- subsequences

  ghost predicate Embeds(at: seq<nat>, small: seq<Text>, big: seq<Text>) {
    && |at| == |small|
    && (forall i :: 0 <= i < |at| ==> at[i] < |big| && big[at[i]] == small[i])
    && (forall i, j :: 0 <= i < j < |at| ==> at[i] < at[j])
  }

  /** Some strictly increasing choice of positions of `big` spells `small`. */
  ghost predicate Subsequence(small: seq<Text>, big: seq<Text>) {
    exists at: seq<nat> :: Embeds(at, small, big)
  }

  lemma SubsequenceEmpty(big: seq<Text>)
    ensures Subsequence([], big)
  {
    assert Embeds([], [], big);
  }

  /** The last element of `big` is either used for the last element of `small` or not at all. */
  lemma SubsequenceStep(small: seq<Text>, x: Text, big: seq<Text>, y: Text)
    ensures Subsequence(small + [x], big + [y])
       <==> Subsequence(small + [x], big) || (x == y && Subsequence(small, big))
  {
    if at: seq<nat> :| Embeds(at, small + [x], big + [y]) {
      var n := |small|;
      assert (small + [x])[n] == x;
      if at[n] < |big| {
        forall i | 0 <= i <= n ensures at[i] < |big| && big[at[i]] == (small + [x])[i] {
          assert at[i] <= at[n];
          assert (big + [y])[at[i]] == big[at[i]];
        }
        assert Embeds(at, small + [x], big);
      } else {
        assert at[n] == |big|;
        forall i | 0 <= i < n ensures at[..n][i] < |big| && big[at[..n][i]] == small[i] {
          assert at[i] < at[n];
          assert (big + [y])[at[i]] == big[at[i]];
          assert (small + [x])[i] == small[i];
        }
        assert Embeds(at[..n], small, big);
      }
    }
    if at: seq<nat> :| Embeds(at, small + [x], big) {
      assert Embeds(at, small + [x], big + [y]);
    }
    if x == y {
      if at: seq<nat> :| Embeds(at, small, big) {
        assert Embeds(at + [|big|], small + [x], big + [y]);
      }
    }
  }

  lemma SubsequenceNothing(small: seq<Text>)
    requires small != []
    ensures !Subsequence(small, [])
  {
    forall at: seq<nat> ensures !Embeds(at, small, []) {
      if |at| == |small| {
        assert at[0] >= 0;
      }
    }
  }

  lemma SubsequenceSelf(a: seq<Text>)
    ensures Subsequence(a, a)
  {
    var at: seq<nat> := seq(|a|, (i: nat) => i);
    assert Embeds(at, a, a);
  }

  lemma SubsequenceJoin(a: seq<Text>, b: seq<Text>, c: seq<Text>, d: seq<Text>)
    requires Subsequence(a, c) && Subsequence(b, d)
    ensures Subsequence(a + b, c + d)
  {
    var f: seq<nat> :| Embeds(f, a, c);
    var g: seq<nat> :| Embeds(g, b, d);
    var h: seq<nat> := f + seq(|g|, (i: nat) requires i < |g| => |c| + g[i]);
    forall i | 0 <= i < |h| ensures h[i] < |c + d| && (c + d)[h[i]] == (a + b)[i] {
      if i >= |f| { assert h[i] == |c| + g[i - |f|]; }
    }
    forall i, j | 0 <= i < j < |h| ensures h[i] < h[j] {
      if i < |f| <= j { assert h[i] < |c|; }
    }
    assert Embeds(h, a + b, c + d);
  }

  lemma SubsequenceWithin(a: seq<Text>, left: seq<Text>, right: seq<Text>)
    ensures Subsequence(a, left + a + right)
  {
    SubsequenceEmpty(left);
    SubsequenceEmpty(right);
    SubsequenceSelf(a);
    SubsequenceJoin([], a, left, a);
    SubsequenceJoin([] + a, [], left + a, right);
    assert [] + a + [] == a;
  }

  function Count(a: seq<Text>, x: Text): nat {
    if a == [] then 0 else Count(a[..|a| - 1], x) + if a[|a| - 1] == x then 1 else 0
  }

  lemma {:induction false} CountAppend(a: seq<Text>, b: seq<Text>, x: Text)
    ensures Count(a + b, x) == Count(a, x) + Count(b, x)
  {
    if b == [] {
      assert a + b == a;
    } else {
      CountAppend(a, b[..|b| - 1], x);
      assert (a + b)[..|a + b| - 1] == a + b[..|b| - 1];
    }
  }

  lemma {:induction false} CountAbsent(a: seq<Text>, x: Text)
    ensures Count(a, x) == 0 <==> x !in a
  {
    if a != [] {
      CountAbsent(a[..|a| - 1], x);
      assert a == a[..|a| - 1] + [a[|a| - 1]];
    }
  }

  /** A subsequence repeats no element more often than its source. */
  lemma {:induction false} SubsequenceCounts(small: seq<Text>, big: seq<Text>, x: Text)
    requires Subsequence(small, big)
    ensures Count(small, x) <= Count(big, x)
    decreases |big|
  {
    if small == [] {
    } else if big == [] {
      SubsequenceNothing(small);
    } else {
      var s, b := small[..|small| - 1], big[..|big| - 1];
      assert small == s + [small[|small| - 1]] && big == b + [big[|big| - 1]];
      SubsequenceStep(s, small[|small| - 1], b, big[|big| - 1]);
      if Subsequence(small, b) {
        SubsequenceCounts(small, b, x);
      } else {
        SubsequenceCounts(s, b, x);
      }
    }
  }

  lemma {:induction false} SubsequenceLength(small: seq<Text>, big: seq<Text>)
    requires Subsequence(small, big)
    ensures |small| <= |big|
    decreases |big|
  {
    if small == [] {
    } else if big == [] {
      SubsequenceNothing(small);
    } else {
      var s, b := small[..|small| - 1], big[..|big| - 1];
      assert small == s + [small[|small| - 1]] && big == b + [big[|big| - 1]];
      SubsequenceStep(s, small[|small| - 1], b, big[|big| - 1]);
      if Subsequence(small, b) {
        SubsequenceLength(small, b);
      } else {
        SubsequenceLength(s, b);
      }
    }
  }

  /** Generation `source` survives in `candidate`: every line, in order, duplicates included. */
  ghost predicate Preserved(source: Text, candidate: Text) {
    source == "" || Subsequence(Split(source), Split(candidate))
  }

  lemma SubsequencePrefix(small: seq<Text>, big: seq<Text>, n: nat)
    requires n <= |big| && Subsequence(small, big[..n])
    ensures Subsequence(small, big)
  {
    var at: seq<nat> :| Embeds(at, small, big[..n]);
    assert Embeds(at, small, big);
  }

  /** The longest prefix found in `n` lines grows by at most the next required line. */
  lemma GreedyStep(required: seq<Text>, m: nat, lines: seq<Text>, n: nat)
    requires m < |required| && n < |lines|
    requires Subsequence(required[..m], lines[..n]) && !Subsequence(required[..m + 1], lines[..n])
    ensures var next := if lines[n] == required[m] then m + 1 else m;
      && Subsequence(required[..next], lines[..n + 1])
      && (next < |required| ==> !Subsequence(required[..next + 1], lines[..n + 1]))
  {
    hide Subsequence;
    assert lines[..n + 1] == lines[..n] + [lines[n]];
    assert required[..m + 1] == required[..m] + [required[m]];
    SubsequenceStep(required[..m], required[m], lines[..n], lines[n]);
    if lines[n] == required[m] {
      if m + 1 < |required| {
        assert required[..m + 2] == required[..m + 1] + [required[m + 1]];
        SubsequenceStep(required[..m + 1], required[m + 1], lines[..n], lines[n]);
        if Subsequence(required[..m + 2], lines[..n]) {
          PrefixSubsequence(required[..m + 1], [required[m + 1]], lines[..n]);
        }
      }
    } else if m == 0 {
      SubsequenceEmpty(lines[..n + 1]);
      assert required[..0] == [];
    } else {
      assert required[..m] == required[..m - 1] + [required[m - 1]];
      SubsequenceStep(required[..m - 1], required[m - 1], lines[..n], lines[n]);
    }
  }

  /** The greedy scan finds an embedding whenever there is one. */
  method SourceIsPreserved(source: Text, candidate: Text) returns (preserved: bool)
    ensures preserved <==> Preserved(source, candidate)
  {
    if |source| == 0 { return true; }
    hide Subsequence, Split;
    var required := Split(source);
    var lines := Split(candidate);
    var matched := 0;
    SubsequenceNothing(required[..1]);
    SubsequenceEmpty([]);
    for n := 0 to |lines|
      invariant 0 <= matched < |required|
      invariant Subsequence(required[..matched], lines[..n])
      invariant !Subsequence(required[..matched + 1], lines[..n])
    {
      GreedyStep(required, matched, lines, n);
      if lines[n] == required[matched] { matched := matched + 1; }
      if matched == |required| {
        assert required[..matched] == required;
        SubsequencePrefix(required, lines, n + 1);
        return true;
      }
    }
    assert lines[..|lines|] == lines;
    if Subsequence(required, lines) {
      assert required == required[..matched + 1] + required[matched + 1..];
      PrefixSubsequence(required[..matched + 1], required[matched + 1..], lines);
    }
    return false;
  }

  lemma PrefixSubsequence(a: seq<Text>, b: seq<Text>, big: seq<Text>)
    requires Subsequence(a + b, big)
    ensures Subsequence(a, big)
  {
    var at: seq<nat> :| Embeds(at, a + b, big);
    forall i | 0 <= i < |a| ensures at[..|a|][i] < |big| && big[at[..|a|][i]] == a[i] {
      assert (a + b)[i] == a[i];
    }
    assert Embeds(at[..|a|], a, big);
  }

  // ------------------------------------------------------ concatenation

  function NonEmpty(sources: seq<Text>): (kept: seq<Text>)
    ensures forall k :: 0 <= k < |kept| ==> kept[k] != "" && kept[k] in sources
    ensures forall s :: s in sources && s != "" ==> s in kept
  {
    if sources == [] then []
    else (if sources[0] == "" then [] else [sources[0]]) + NonEmpty(sources[1..])
  }

  /** One step of the reduction: a newline is put in only where the text so far lacks one. */
  function Glue(result: Text, source: Text): Text {
    result + (if |result| > 0 && !EndsLine(result) then ['\n'] else "") + source
  }

  function Reduce(result: Text, sources: seq<Text>): Text
    decreases |sources|
  {
    if sources == [] then result else Reduce(Glue(result, sources[0]), sources[1..])
  }

  function Concatenate(sources: seq<Text>): Text {
    Reduce("", NonEmpty(sources))
  }

  /** The lines of a generation without the empty line after its final newline. */
  function Body(s: Text): seq<Text> {
    if EndsLine(s) then Split(WithoutNewline(s)) else Split(s)
  }

  function Bodies(sources: seq<Text>): seq<Text> {
    if sources == [] then [] else Body(sources[0]) + Bodies(sources[1..])
  }

  function FinalLine(s: Text): seq<Text> {
    if EndsLine(s) then [[]] else []
  }

  lemma SplitBody(s: Text)
    ensures Split(s) == Body(s) + FinalLine(s)
  {
    if EndsLine(s) { SplitEndsLine(s); }
  }

  lemma SameBefore(a: seq<Text>, b: seq<Text>, tail: seq<Text>)
    requires a + tail == b + tail
    ensures a == b
  {
    assert a == (a + tail)[..|a|] && b == (b + tail)[..|b|];
  }

  lemma Associate(a: seq<Text>, b: seq<Text>, c: seq<Text>)
    ensures a + b + c == a + (b + c)
  {
  }

  lemma GlueBody(result: Text, source: Text)
    requires result != "" && source != ""
    ensures Glue(result, source) != ""
    ensures Body(Glue(result, source)) == Body(result) + Body(source)
    ensures EndsLine(Glue(result, source)) == EndsLine(source)
  {
    var next := Glue(result, source);
    var head := if EndsLine(result) then WithoutNewline(result) else result;
    assert next == head + ['\n'] + source;
    SplitAppend(head, source);
    SplitBody(source);
    SplitBody(next);
    Associate(Body(result), Body(source), FinalLine(source));
    SameBefore(Body(next), Body(result) + Body(source), FinalLine(source));
  }

  lemma {:induction false} ReduceLines(result: Text, sources: seq<Text>)
    requires result != ""
    requires forall k :: 0 <= k < |sources| ==> sources[k] != ""
    ensures var last := if sources == [] then result else sources[|sources| - 1];
            && Split(Reduce(result, sources)) == Body(result) + Bodies(sources) + FinalLine(last)
            && EndsLine(Reduce(result, sources)) == EndsLine(last)
            && Reduce(result, sources) != ""
    decreases sources
  {
    if sources == [] {
      SplitBody(result);
    } else {
      var next := Glue(result, sources[0]);
      GlueBody(result, sources[0]);
      ReduceLines(next, sources[1..]);
      assert Bodies(sources) == Body(sources[0]) + Bodies(sources[1..]);
      Associate(Body(result), Body(sources[0]), Bodies(sources[1..]));
    }
  }

  lemma ConcatenateLines(sources: seq<Text>)
    ensures var kept := NonEmpty(sources);
            if kept == [] then Concatenate(sources) == ""
            else
              && Split(Concatenate(sources)) == Bodies(kept) + FinalLine(kept[|kept| - 1])
              && EndsLine(Concatenate(sources)) == EndsLine(kept[|kept| - 1])
              && Concatenate(sources) != ""
  {
    var kept := NonEmpty(sources);
    if kept != [] {
      assert Glue("", kept[0]) == kept[0];
      ReduceLines(kept[0], kept[1..]);
    }
  }

  lemma {:induction false} BodiesAt(sources: seq<Text>, k: nat) returns (left: seq<Text>, right: seq<Text>)
    requires k < |sources|
    ensures Bodies(sources) == left + Body(sources[k]) + right
    ensures k == |sources| - 1 ==> right == []
  {
    hide Body;
    if k == 0 {
      left, right := [], Bodies(sources[1..]);
      assert [] + Body(sources[0]) == Body(sources[0]);
    } else {
      var l, r := BodiesAt(sources[1..], k - 1);
      left, right := Body(sources[0]) + l, r;
      assert sources[1..][k - 1] == sources[k];
      Associate(Body(sources[0]), l, Body(sources[k]));
      Associate(Body(sources[0]), l + Body(sources[k]), r);
    }
  }

  /** The text `mergeCapturedProjectGitExcludeLines` publishes. */
  function MergedText(current: Text, missing: seq<Text>): Text {
    Concatenate([current] + missing + [current])
  }

  lemma {:induction false} NonEmptyAppend(a: seq<Text>, b: seq<Text>)
    ensures NonEmpty(a + b) == NonEmpty(a) + NonEmpty(b)
  {
    if a == [] {
      assert a + b == b;
    } else {
      NonEmptyAppend(a[1..], b);
      assert (a + b)[1..] == a[1..] + b;
      Associate(if a[0] == "" then [] else [a[0]], NonEmpty(a[1..]), NonEmpty(b));
    }
  }

  lemma {:induction false} BodiesAppend(a: seq<Text>, b: seq<Text>)
    ensures Bodies(a + b) == Bodies(a) + Bodies(b)
  {
    hide Body;
    if a == [] {
      assert a + b == b;
    } else {
      BodiesAppend(a[1..], b);
      assert (a + b)[1..] == a[1..] + b;
      Associate(Body(a[0]), Bodies(a[1..]), Bodies(b));
    }
  }

  lemma {:induction false} BodyInBodies(sources: seq<Text>, source: Text, line: Text)
    requires source in sources && line in Body(source)
    ensures line in Bodies(sources)
  {
    hide Body;
    if source != sources[0] { BodyInBodies(sources[1..], source, line); }
  }

  /** The lines of the glued text around one of its generations. */
  lemma ConcatenateAround(sources: seq<Text>, k: nat) returns (left: seq<Text>, right: seq<Text>, tail: seq<Text>)
    requires k < |sources| && sources[k] != ""
    ensures Split(Concatenate(sources)) == left + Body(sources[k]) + right + tail
    ensures tail == FinalLine(Concatenate(sources))
    ensures right == Bodies(NonEmpty(sources[k + 1..]))
  {
    hide Split, Body, Bodies, Concatenate, EndsLine;
    var source, before, after := sources[k], NonEmpty(sources[..k]), NonEmpty(sources[k + 1..]);
    var kept := NonEmpty(sources);
    NonEmptyAppend(sources[..k], [source] + sources[k + 1..]);
    NonEmptyAppend([source], sources[k + 1..]);
    assert sources == sources[..k] + ([source] + sources[k + 1..]);
    assert NonEmpty([source]) == [source];
    BodiesAppend(before, [source] + after);
    BodiesAppend([source], after);
    BodiesOne(source);
    left, right, tail := Bodies(before), Bodies(after), FinalLine(Concatenate(sources));
    Associate(left, Body(source), right);
    ConcatenateLines(sources);
  }

  lemma BodiesOne(source: Text)
    ensures Bodies([source]) == Body(source)
  {
    assert [source][1..] == [];
  }

  /**
   A generation is in the glued text when it does not end in a newline, or when
   some line after its own is empty: the one after the final newline of the whole
   text, or one inside a later generation.
   */
  lemma ConcatenateKeeps(sources: seq<Text>, k: nat)
    requires k < |sources|
    requires
      || !EndsLine(sources[k])
      || EndsLine(Concatenate(sources))
      || exists j :: k < j < |sources| && EmptyLineInside(sources[j])
    ensures Preserved(sources[k], Concatenate(sources))
  {
    hide Split, Body, Bodies, Concatenate, Subsequence, EndsLine;
    var source := sources[k];
    if source == "" { return; }
    var left, right, tail := ConcatenateAround(sources, k);
    SplitBody(source);
    SubsequenceWithin(Body(source), left, []);
    NothingAfter(left + Body(source));
    Associate(left + Body(source), right, tail);
    if EndsLine(source) {
      if !EndsLine(Concatenate(sources)) {
        var j :| k < j < |sources| && EmptyLineInside(sources[j]);
        assert sources[k + 1..][j - (k + 1)] == sources[j];
        BodyInBodies(NonEmpty(sources[k + 1..]), sources[j], "");
      }
      assert "" in right + tail;
      MemberSubsequence("", right + tail);
    } else {
      SubsequenceEmpty(right + tail);
    }
    SubsequenceJoin(Body(source), FinalLine(source), left + Body(source), right + tail);
  }

  /** A line of the generation, other than the one after its final newline, is empty. */
  predicate EmptyLineInside(s: Text) {
    s != "" && "" in Body(s)
  }

  /** The newest generation always survives, as the last lines of the merged text. */
  lemma MergeEndsWithCurrent(current: Text, missing: seq<Text>) returns (before: seq<Text>)
    requires current != ""
    ensures Split(MergedText(current, missing)) == before + Split(current)
    ensures Preserved(current, MergedText(current, missing))
  {
    hide Body, Split, FinalLine, EndsLine, Subsequence, Bodies, Concatenate;
    var sources := [current] + missing + [current];
    ConcatenateLines(sources);
    NonEmptyLast(sources);
    var kept := NonEmpty(sources);
    var left, right := BodiesAt(kept, |kept| - 1);
    before := left;
    SplitBody(current);
    NothingAfter(left + Body(current));
    Associate(left, Body(current), FinalLine(current));
    SubsequenceWithin(Split(current), left, []);
    NothingAfter(left + Split(current));
  }

  lemma NothingAfter(a: seq<Text>)
    ensures a + [] == a
  {
  }

  lemma {:induction false} NonEmptyLast(sources: seq<Text>)
    requires sources != [] && sources[|sources| - 1] != ""
    ensures NonEmpty(sources) != [] && NonEmpty(sources)[|NonEmpty(sources)| - 1] == sources[|sources| - 1]
  {
    if |sources| > 1 { NonEmptyLast(sources[1..]); }
  }

  lemma {:induction false} NonEmptyAll(sources: seq<Text>)
    requires "" !in sources
    ensures NonEmpty(sources) == sources
  {
    if sources != [] {
      assert sources[0] in sources;
      NonEmptyAll(sources[1..]);
      assert sources == [sources[0]] + NonEmpty(sources[1..]);
    }
  }

  lemma MergedLines(current: Text, missing: Text)
    requires current != "" && missing != ""
    ensures Split(MergedText(current, [missing])) == Body(current) + Body(missing) + Split(current)
  {
    var sources := [current] + [missing] + [current];
    NonEmptyAll(sources);
    ConcatenateLines(sources);
    assert sources[1..] == [missing, current] && sources[1..][1..] == [current] && [current][1..] == [];
    assert Bodies([current]) == Body(current);
    assert Bodies(sources) == Body(current) + (Body(missing) + Body(current));
    Associate(Body(current), Body(missing), Body(current));
    Associate(Body(current) + Body(missing), Body(current), FinalLine(current));
    SplitBody(current);
  }

  /**
   With one missing generation the merge keeps it exactly when that generation
   does not end in a newline or the current text has an empty line.
   */
  lemma MergeKeepsMissing(current: Text, missing: Text)
    ensures Preserved(missing, MergedText(current, [missing]))
       <==> !EndsLine(missing) || "" in Split(current)
  {
    var sources := [current] + [missing] + [current];
    if !EndsLine(missing) {
      ConcatenateKeeps(sources, 1);
    } else if current == "" {
      NonEmptyMiddle(missing);
      ConcatenateLines(sources);
      ConcatenateKeeps(sources, 1);
    } else if "" in Split(current) {
      MergeKeepsEach(current, [missing], 0);
    } else {
      MergeLosesFinalLine(current, missing);
    }
  }

  lemma NonEmptyMiddle(missing: Text)
    requires missing != ""
    ensures NonEmpty([""] + [missing] + [""]) == [missing]
    ensures missing in [""] + [missing] + [""]
  {
    var sources: seq<Text> := [""] + [missing] + [""];
    assert sources[1] == missing;
    assert sources[1..] == [missing] + [""] && sources[1..][1..] == [""];
    assert NonEmpty([""]) == [];
    assert NonEmpty(sources[1..]) == [missing];
  }

  /** An empty line of the current text serves every missing generation. */
  lemma MergeKeepsEach(current: Text, missing: seq<Text>, k: nat)
    requires k < |missing|
    requires !EndsLine(missing[k]) || (current != "" && "" in Split(current))
    ensures Preserved(missing[k], MergedText(current, missing))
  {
    hide Split, Body, Preserved, NonEmpty;
    var sources := [current] + missing + [current];
    assert sources[k + 1] == missing[k];
    if current != "" && "" in Split(current) {
      SplitBody(current);
      assert sources[|sources| - 1] == current;
      if !EmptyLineInside(current) {
        NonEmptyLast(sources);
        ConcatenateLines(sources);
      }
    }
    ConcatenateKeeps(sources, k + 1);
  }

  lemma MemberSubsequence(line: Text, lines: seq<Text>)
    requires line in lines
    ensures Subsequence([line], lines)
  {
    var k :| 0 <= k < |lines| && lines[k] == line;
    assert Embeds([k], [line], lines);
  }

  /** One empty line too few: the merge has only the empty lines inside the missing generation. */
  lemma MergeLosesFinalLine(current: Text, missing: Text)
    requires EndsLine(missing) && current != "" && "" !in Split(current)
    ensures !Preserved(missing, MergedText(current, [missing]))
  {
    MergedLines(current, missing);
    SplitBody(missing);
    SplitBody(current);
    var merged := Split(MergedText(current, [missing]));
    CountAbsent(Split(current), "");
    CountAbsent(Body(current), "");
    CountAppend(Body(current) + Body(missing), Split(current), "");
    CountAppend(Body(current), Body(missing), "");
    CountAppend(Body(missing), [""], "");
    var one: seq<Text> := [""];
    assert Count(one, "") == Count(one[..0], "") + 1;
    if Subsequence(Split(missing), merged) {
      SubsequenceCounts(Split(missing), merged, "");
      assert false;
    }
  }

  // ---------------------------------------------------------- the merge loop

  /** The required generations that `text` does not hold. */
  ghost function Lacking(required: seq<Text>, text: Text): seq<Text> {
    if required == [] then []
    else Lacking(required[..|required| - 1], text)
         + (if Preserved(required[|required| - 1], text) then [] else [required[|required| - 1]])
  }

  lemma {:induction false} LackingAre(required: seq<Text>, text: Text)
    ensures forall s :: s in Lacking(required, text) <==> s in required && !Preserved(s, text)
  {
    hide Preserved;
    if required != [] {
      LackingAre(required[..|required| - 1], text);
      assert required == required[..|required| - 1] + [required[|required| - 1]];
    }
  }

  ghost predicate AllKept(required: seq<Text>, text: Text) {
    forall s :: s in required ==> Preserved(s, text)
  }

  /** The public text and the generations it must hold, between two attempts of the merge loop. */
  datatype Round = Round(text: Text, required: seq<Text>)

  /** One attempt with nobody else at work: what the text lacks is merged into it, if anything. */
  ghost function NextRound(r: Round): Round {
    var grown := if r.text in r.required then r.required else r.required + [r.text];
    var missing := Lacking(grown, r.text);
    Round(if missing == [] then r.text else MergedText(r.text, missing), grown)
  }

  ghost function AfterRounds(text: Text, required: seq<Text>, rounds: nat): Round {
    if rounds == 0 then Round(text, required) else NextRound(AfterRounds(text, required, rounds - 1))
  }

  lemma PreservedSelf(s: Text)
    ensures Preserved(s, s)
  {
    SubsequenceSelf(Split(s));
  }

  lemma PreservedInEmpty(s: Text)
    requires Preserved(s, "")
    ensures s == ""
  {
    if s != "" {
      var empty: Text := "";
      assert Split(empty) == [empty];
      SubsequenceLength(Split(s), Split(empty));
      var at: seq<nat> :| Embeds(at, Split(s), Split(empty));
      assert Split(s) == [empty] by { assert Split(s)[0] == empty; }
      JoinSplit(s);
    }
  }

  /** What a text holds, every merge onto it holds. */
  lemma MergeKeepsKept(current: Text, missing: seq<Text>, source: Text)
    requires Preserved(source, current)
    ensures Preserved(source, MergedText(current, missing))
  {
    if current == "" {
      PreservedInEmpty(source);
    } else if source != "" {
      var before := MergeEndsWithCurrent(current, missing);
      SubsequenceEmpty(before);
      hide Split, Subsequence;
      SubsequenceJoin([], Split(source), before, Split(current));
      assert [] + Split(source) == Split(source);
    }
  }

  lemma RoundKeeps(r: Round, s: Text)
    requires Preserved(s, r.text)
    ensures Preserved(s, NextRound(r).text)
  {
    hide Preserved;
    var grown := if r.text in r.required then r.required else r.required + [r.text];
    MergeKeepsKept(r.text, Lacking(grown, r.text), s);
  }

  /** What an attempt merges is what the text lacks of the required generations; its own text it has. */
  lemma RoundMissing(r: Round) returns (missing: seq<Text>)
    ensures missing == Lacking(r.required, r.text)
    ensures forall s :: s in missing <==> s in r.required && !Preserved(s, r.text)
    ensures NextRound(r).text == if missing == [] then r.text else MergedText(r.text, missing)
    ensures forall s :: s in NextRound(r).required <==> s in r.required || s == r.text
  {
    hide Preserved;
    missing := Lacking(r.required, r.text);
    LackingAre(r.required, r.text);
    LackingOwn(r.required, r.text);
  }

  /** A text lacks nothing more when it is itself required. */
  lemma LackingOwn(required: seq<Text>, text: Text)
    ensures Lacking(required + [text], text) == Lacking(required, text)
  {
    hide Preserved;
    PreservedSelf(text);
    var grown := required + [text];
    assert grown[..|grown| - 1] == required;
    NothingAfter(Lacking(required, text));
  }

  lemma EmptyIsPreserved(text: Text)
    ensures Preserved("", text)
  {
  }

  /** The lines of a merged text: those of the current text around those of every missing generation. */
  lemma MergedLinesAll(current: Text, missing: seq<Text>)
    requires "" !in missing
    ensures current != "" || missing != [] ==> MergedText(current, missing) != ""
    ensures current != "" ==> Split(MergedText(current, missing)) == Body(current) + Bodies(missing) + Split(current)
    ensures current == "" && missing != [] ==>
      && Split(MergedText(current, missing)) == Bodies(missing) + FinalLine(missing[|missing| - 1])
      && EndsLine(MergedText(current, missing)) == EndsLine(missing[|missing| - 1])
  {
    hide Split, Body, Concatenate, EndsLine;
    var sources := [current] + missing + [current];
    ConcatenateLines(sources);
    NonEmptyAll(missing);
    NonEmptyAppend([current] + missing, [current]);
    NonEmptyAppend([current], missing);
    var edge := NonEmpty([current]);
    assert edge == if current == "" then [] else [current];
    assert NonEmpty(sources) == edge + missing + edge;
    if current == "" {
      assert NonEmpty(sources) == missing;
    } else {
      BodiesAppend([current] + missing, [current]);
      BodiesAppend([current], missing);
      BodiesOne(current);
      SplitBody(current);
      Associate(Body(current) + Bodies(missing), Body(current), FinalLine(current));
    }
  }

  lemma {:induction false} NoEmptyBody(sources: seq<Text>)
    requires forall s :: s in sources ==> "" !in Body(s)
    ensures "" !in Bodies(sources)
  {
    hide Body;
    if sources != [] { NoEmptyBody(sources[1..]); }
  }

  /** Whether undisturbed attempts can ever complete, from what the text lacks at the start. */
  ghost predicate RetrySucceeds(text: Text, missing: seq<Text>) {
    || (forall m :: m in missing ==> !EndsLine(m))
    || (exists m :: m in missing && EmptyLineInside(m))
    || (if text == "" then EndsLine(missing[|missing| - 1]) else "" in Split(text))
  }

  /** No empty line anywhere, and some generation that needs one: the state the loop cannot leave. */
  ghost predicate Stuck(r: Round, required: seq<Text>) {
    && "" !in Split(r.text)
    && (forall s :: s in r.required && !Preserved(s, r.text) ==> !EmptyLineInside(s))
    && (exists s :: s in required && EndsLine(s))
    && (forall s :: s in required ==> s in r.required)
  }

  lemma EndsWithEmptyLine(s: Text, text: Text)
    requires EndsLine(s) && "" !in Split(text)
    ensures !Preserved(s, text)
  {
    hide Split, Subsequence;
    SplitEndsLine(s);
    assert Split(s)[|Split(s)| - 1] == "";
    if Subsequence(Split(s), Split(text)) {
      SubsequenceMember(Split(s), Split(text), "");
      assert false;
    }
  }

  lemma SubsequenceMember(small: seq<Text>, big: seq<Text>, line: Text)
    requires Subsequence(small, big) && line in small
    ensures line in big
  {
    var at: seq<nat> :| Embeds(at, small, big);
    var k :| 0 <= k < |small| && small[k] == line;
    assert big[at[k]] == line;
  }

  lemma StuckLacks(r: Round, required: seq<Text>)
    requires Stuck(r, required)
    ensures !AllKept(required, r.text)
  {
    var s :| s in required && EndsLine(s);
    EndsWithEmptyLine(s, r.text);
  }

  lemma StuckStays(r: Round, required: seq<Text>)
    requires Stuck(r, required)
    ensures Stuck(NextRound(r), required)
  {
    var next := NextRound(r);
    assert r.text != "" by { assert Split("") == [""]; }
    hide Preserved, Split, Body, NextRound, Lacking;
    var missing := RoundMissing(r);
    PreservedSelf(r.text);
    forall s | s in next.required && !Preserved(s, next.text) ensures !EmptyLineInside(s) {
      if Preserved(s, r.text) { RoundKeeps(r, s); }
    }
    EmptyIsPreserved(r.text);
    SplitBody(r.text);
    MergedLinesAll(r.text, missing);
    NoEmptyBody(missing);
  }

  /** The condition is exact: without it no number of attempts completes the merge. */
  lemma {:induction false} RetryNeverKeeps(text: Text, required: seq<Text>, rounds: nat)
    requires !RetrySucceeds(text, Lacking(required, text))
    ensures !AllKept(required, AfterRounds(text, required, rounds).text)
    ensures text != "" || rounds > 0 ==> Stuck(AfterRounds(text, required, rounds), required)
  {
    hide Split, Body, Preserved, Lacking, NextRound;
    var start := Round(text, required);
    LackingAre(required, text);
    if rounds == 0 {
      var m :| m in Lacking(required, text) && EndsLine(m);
      assert m in required && !Preserved(m, text);
    } else if rounds == 1 && text == "" {
      StuckAfterEmpty(required);
      StuckLacks(NextRound(start), required);
      assert AfterRounds(text, required, 0) == start;
    } else {
      RetryNeverKeeps(text, required, rounds - 1);
      var r := AfterRounds(text, required, rounds - 1);
      StuckStays(r, required);
      StuckLacks(NextRound(r), required);
    }
  }

  /** The first merge onto an empty text. */
  lemma StuckAfterEmpty(required: seq<Text>)
    requires !RetrySucceeds("", Lacking(required, ""))
    ensures Stuck(NextRound(Round("", required)), required)
  {
    hide Split, Body, Preserved, Lacking, NextRound, EndsLine;
    var r: Round := Round("", required);
    var next := NextRound(r);
    var missing := RoundMissing(r);
    EmptyIsPreserved("");
    MergedLinesAll("", missing);
    NoEmptyBody(missing);
    forall s | s in next.required && !Preserved(s, next.text) ensures !EmptyLineInside(s) {
      if Preserved(s, "") { RoundKeeps(r, s); }
    }
  }

  /** What one attempt brings back. */
  lemma RoundBringsBack(r: Round, s: Text)
    requires s in r.required
    requires
      || !EndsLine(s)
      || (r.text != "" && "" in Split(r.text))
      || (r.text == "" && Lacking(r.required, "") != [] && EndsLine(Lacking(r.required, "")[|Lacking(r.required, "")| - 1]))
    ensures Preserved(s, NextRound(r).text)
  {
    hide Preserved, Split, Lacking, NextRound, EndsLine;
    var missing := RoundMissing(r);
    if Preserved(s, r.text) {
      RoundKeeps(r, s);
    } else {
      var k :| 0 <= k < |missing| && missing[k] == s;
      EmptyIsPreserved(r.text);
      MergedLinesAll(r.text, missing);
      if r.text == "" && EndsLine(s) {
        var sources := [r.text] + missing + [r.text];
        assert sources[k + 1] == s;
        ConcatenateKeeps(sources, k + 1);
      } else {
        MergeKeepsEach(r.text, missing, k);
      }
    }
  }

  /** A merged generation with an empty line inside gives the public text one. */
  lemma RoundGainsEmptyLine(r: Round, m: Text)
    requires m in Lacking(r.required, r.text) && EmptyLineInside(m)
    ensures NextRound(r).text != "" && "" in Split(NextRound(r).text)
  {
    hide Preserved, Split, Lacking, NextRound, Body;
    var missing := RoundMissing(r);
    EmptyIsPreserved(r.text);
    MergedLinesAll(r.text, missing);
    BodyInBodies(missing, m, "");
  }

  /** When undisturbed attempts can complete, two are enough. */
  lemma TwoRoundsKeep(text: Text, required: seq<Text>)
    requires RetrySucceeds(text, Lacking(required, text))
    ensures AllKept(required, AfterRounds(text, required, 2).text)
  {
    hide Preserved, Split, NextRound, EndsLine, Lacking;
    var r := Round(text, required);
    var r1 := NextRound(r);
    var missing := RoundMissing(r);
    assert AfterRounds(text, required, 2) == NextRound(r1) by {
      assert AfterRounds(text, required, 0) == r;
      assert AfterRounds(text, required, 1) == r1;
    }
    forall s | s in required ensures Preserved(s, NextRound(r1).text) {
      if Preserved(s, text) {
        RoundKeeps(r, s);
        RoundKeeps(r1, s);
      } else if m :| m in missing && EmptyLineInside(m) {
        RoundGainsEmptyLine(r, m);
        RoundBringsBack(r1, s);
      } else {
        RoundBringsBack(r, s);
        RoundKeeps(r1, s);
      }
    }
  }

  /** After two such attempts the text holds what was read in between as well. */
  lemma TwoRoundsFinish(text: Text, required: seq<Text>)
    requires RetrySucceeds(text, Lacking(required, text))
    ensures var r := AfterRounds(text, required, 2); AllKept(r.required, r.text)
  {
    hide Preserved, NextRound, Lacking, RetrySucceeds;
    var r0 := Round(text, required);
    var r1 := NextRound(r0);
    var r2 := NextRound(r1);
    assert AfterRounds(text, required, 2) == r2 by {
      assert AfterRounds(text, required, 0) == r0;
      assert AfterRounds(text, required, 1) == r1;
    }
    TwoRoundsKeep(text, required);
    PreservedSelf(text);
    RoundKeeps(r0, text);
    RoundKeeps(r1, text);
    PreservedSelf(r1.text);
    RoundKeeps(r1, r1.text);
    forall s | s in r2.required ensures Preserved(s, r2.text) {
      RoundRequires(r0, s);
      RoundRequires(r1, s);
    }
  }

  lemma RoundRequires(r: Round, s: Text)
    ensures s in NextRound(r).required <==> s in r.required || s == r.text
  {
  }

  /** The merge loop, left alone, completes exactly under the condition, and then at its second attempt at the latest. */
  lemma RetryKeepsAllIff(text: Text, required: seq<Text>)
    ensures (exists n: nat :: AllKept(required, AfterRounds(text, required, n).text))
       <==> RetrySucceeds(text, Lacking(required, text))
    ensures RetrySucceeds(text, Lacking(required, text)) ==> AllKept(required, AfterRounds(text, required, 2).text)
  {
    hide AllKept, RetrySucceeds, AfterRounds;
    if RetrySucceeds(text, Lacking(required, text)) {
      TwoRoundsKeep(text, required);
    } else {
      forall n: nat ensures !AllKept(required, AfterRounds(text, required, n).text) {
        RetryNeverKeeps(text, required, n);
      }
    }
  }

  lemma RoundsSucceed(text: Text, required: seq<Text>, rounds: nat)
    requires AllKept(required, AfterRounds(text, required, rounds).text)
    ensures RetrySucceeds(text, Lacking(required, text))
  {
    hide AllKept, RetrySucceeds, AfterRounds;
    RetryKeepsAllIff(text, required);
  }

  lemma OneMoreRound(text: Text, required: seq<Text>, rounds: nat)
    ensures AfterRounds(text, required, rounds + 1) == NextRound(AfterRounds(text, required, rounds))
  {
  }

  /** The condition for one generation the text lacks. */
  lemma RetryKeepsOneIff(text: Text, missing: Text)
    requires !Preserved(missing, text)
    ensures (exists n: nat :: Preserved(missing, AfterRounds(text, [missing], n).text))
       <==> !EndsLine(missing) || "" in Split(text) || "" in Body(missing)
  {
    hide Preserved, AfterRounds, Body, EndsLine;
    RetryKeepsAllIff(text, [missing]);
    LackingOne(missing, text);
    EmptyIsPreserved(text);
    forall n: nat ensures AllKept([missing], AfterRounds(text, [missing], n).text)
                     <==> Preserved(missing, AfterRounds(text, [missing], n).text)
    {
      assert missing in [missing];
    }
    assert Split("") == [""];
  }

  lemma LackingOne(missing: Text, text: Text)
    requires !Preserved(missing, text)
    ensures Lacking([missing], text) == [missing]
  {
    hide Preserved;
    assert [missing][..0] == [];
  }

  /** git's rule: the last line that matches a path decides whether it is ignored. */
  function Decision(lines: seq<Text>, rule: Text -> Option<bool>): Option<bool> {
    if lines == [] then None
    else if rule(lines[|lines| - 1]).Some? then rule(lines[|lines| - 1])
    else Decision(lines[..|lines| - 1], rule)
  }

  lemma {:induction false} DecisionSuffix(before: seq<Text>, after: seq<Text>, rule: Text -> Option<bool>)
    ensures Decision(before + after, rule)
         == if Decision(after, rule).Some? then Decision(after, rule) else Decision(before, rule)
  {
    if after == [] {
      assert before + after == before;
    } else {
      DecisionSuffix(before, after[..|after| - 1], rule);
      assert (before + after)[..|before + after| - 1] == before + after[..|after| - 1];
    }
  }

  /** Whatever the newest generation decides about a path, the merged text decides the same. */
  lemma MergeKeepsDecision(current: Text, missing: seq<Text>, rule: Text -> Option<bool>)
    requires Decision(Split(current), rule).Some?
    requires current != ""
    ensures Decision(Split(MergedText(current, missing)), rule) == Decision(Split(current), rule)
  {
    var before := MergeEndsWithCurrent(current, missing);
    DecisionSuffix(before, Split(current), rule);
  }

  // --------------------------------------------------- marked rule block

  /** The appended text of `appendProjectGitExcludeRules`: an owned block after the existing text. */
  function AppendBlock(original: Text, marker: Text, rules: seq<Text>): Text {
    original + (if EndsLine(original) || original == "" then "" else ['\n']) + (Join([marker] + rules) + ['\n'])
  }

  datatype Removal = Unchanged | Collision | Changed(text: Text)

  function Positions(lines: seq<Text>, marker: Text): (found: seq<nat>)
    ensures forall k :: 0 <= k < |found| ==> found[k] < |lines| && lines[found[k]] == marker
  {
    if lines == [] then []
    else
      Positions(lines[..|lines| - 1], marker)
      + (if lines[|lines| - 1] == marker then [|lines| - 1] else [])
  }

  predicate RulesFollow(lines: seq<Text>, at: nat, rules: seq<Text>) {
    at + |rules| < |lines| && lines[at + 1..at + 1 + |rules|] == rules
  }

  /** Removal of a marked block: exactly one marker line, followed by exactly the owned rules. */
  function RemoveBlock(text: Text, marker: Text, rules: seq<Text>): Removal {
    var lines := Split(text);
    var found := Positions(lines, marker);
    if |found| == 0 then Unchanged
    else if |found| != 1 || !RulesFollow(lines, found[0], rules) then Collision
    else
      var kept := Join(lines[..found[0]] + lines[found[0] + |rules| + 1..]);
      if kept == text then Unchanged else Changed(kept)
  }

  lemma {:induction false} OnePosition(before: seq<Text>, marker: Text, after: seq<Text>)
    requires marker !in before && marker !in after
    ensures Positions(before + [marker] + after, marker) == [|before|]
    decreases |after|
  {
    var lines := before + [marker] + after;
    if after == [] {
      assert lines[..|lines| - 1] == before;
      NoPosition(before, marker);
    } else {
      assert lines[..|lines| - 1] == before + [marker] + after[..|after| - 1];
      OnePosition(before, marker, after[..|after| - 1]);
    }
  }

  lemma {:induction false} NoPosition(lines: seq<Text>, marker: Text)
    requires marker !in lines
    ensures Positions(lines, marker) == []
  {
    if lines != [] { NoPosition(lines[..|lines| - 1], marker); }
  }

  ghost predicate OneLine(s: Text) {
    '\n' !in s
  }

  /**
   Whatever was edited before or after the block, removal gives exactly the
   lines before it followed by the lines after it.
   */
  lemma RemoveGivesSurroundings(before: seq<Text>, after: seq<Text>, marker: Text, rules: seq<Text>)
    requires OneLine(marker) && forall k :: 0 <= k < |rules| ==> OneLine(rules[k])
    requires forall k :: 0 <= k < |before| ==> OneLine(before[k])
    requires forall k :: 0 <= k < |after| ==> OneLine(after[k])
    requires marker !in before && marker !in after && marker !in rules && marker != ""
    ensures RemoveBlock(Join(before + [marker] + rules + after), marker, rules) == Changed(Join(before + after))
  {
    hide Split, Join, Positions;
    var lines := before + [marker] + rules + after;
    Associate(before + [marker], rules, after);
    assert forall k :: 0 <= k < |lines| ==> OneLine(lines[k]);
    SplitJoin(lines);
    OnePosition(before, marker, rules + after);
    BlockSlices(before, marker, rules, after);
    assert lines[|before|] == marker;
    JoinDiffers(before + after, lines);
  }

  /** The lines are an unedited block between others, and the marker is in no other line. */
  ghost predicate BlockBetween(lines: seq<Text>, before: seq<Text>, marker: Text, rules: seq<Text>, after: seq<Text>) {
    lines == before + [marker] + rules + after && marker !in before && marker !in rules && marker !in after
  }

  /**
   When a marked removal does what: nothing exactly without the marker; the removal
   exactly of one unedited block, whose lines go; and a collision in every other case:
   a second marker, or a rule that was edited, moved or deleted.
   */
  lemma RemoveBlockIff(text: Text, marker: Text, rules: seq<Text>)
    requires marker != ""
    ensures RemoveBlock(text, marker, rules) == Unchanged <==> marker !in Split(text)
    ensures RemoveBlock(text, marker, rules).Changed? <==>
      exists before, after :: BlockBetween(Split(text), before, marker, rules, after)
    ensures forall before, after :: BlockBetween(Split(text), before, marker, rules, after) ==>
      RemoveBlock(text, marker, rules) == Changed(Join(before + after))
  {
    hide Split, Join, Positions;
    var lines := Split(text);
    var found := Positions(lines, marker);
    SplitLines(text);
    JoinSplit(text);
    MarkerAt(lines, marker);
    if |found| == 1 && RulesFollow(lines, found[0], rules) {
      OneMarker(lines, marker);
      SplitAtBlock(lines, found[0], marker, rules);
      JoinDiffers(lines[..found[0]] + lines[found[0] + |rules| + 1..], lines);
    }
    forall before, after | BlockBetween(lines, before, marker, rules, after)
      ensures RemoveBlock(text, marker, rules) == Changed(Join(before + after))
    {
      BlockLinesPlain(lines, before, marker, rules, after);
      RemoveGivesSurroundings(before, after, marker, rules);
    }
  }

  lemma BlockLinesPlain(lines: seq<Text>, before: seq<Text>, marker: Text, rules: seq<Text>, after: seq<Text>)
    requires BlockBetween(lines, before, marker, rules, after) && forall k :: 0 <= k < |lines| ==> OneLine(lines[k])
    ensures OneLine(marker) && forall k :: 0 <= k < |rules| ==> OneLine(rules[k])
    ensures forall k :: 0 <= k < |before| ==> OneLine(before[k])
    ensures forall k :: 0 <= k < |after| ==> OneLine(after[k])
  {
    assert lines[|before|] == marker;
    assert forall k :: 0 <= k < |before| ==> before[k] == lines[k];
    assert forall k :: 0 <= k < |rules| ==> rules[k] == lines[|before| + 1 + k];
    assert forall k :: 0 <= k < |after| ==> after[k] == lines[|before| + 1 + |rules| + k];
  }

  lemma {:induction false} MarkerAt(lines: seq<Text>, marker: Text)
    ensures Positions(lines, marker) == [] <==> marker !in lines
  {
    if lines != [] {
      MarkerAt(lines[..|lines| - 1], marker);
      assert lines == lines[..|lines| - 1] + [lines[|lines| - 1]];
    }
  }

  lemma {:induction false} OneMarker(lines: seq<Text>, marker: Text)
    requires |Positions(lines, marker)| == 1
    ensures forall k :: 0 <= k < |lines| && k != Positions(lines, marker)[0] ==> lines[k] != marker
  {
    var last := |lines| - 1;
    if lines[last] == marker {
      MarkerAt(lines[..last], marker);
    } else {
      OneMarker(lines[..last], marker);
    }
  }

  lemma SplitAtBlock(lines: seq<Text>, at: nat, marker: Text, rules: seq<Text>)
    requires RulesFollow(lines, at, rules) && lines[at] == marker
    requires forall k :: 0 <= k < |lines| && k != at ==> lines[k] != marker
    ensures BlockBetween(lines, lines[..at], marker, rules, lines[at + |rules| + 1..])
  {
  }

  /** Fewer lines join to another text. */
  lemma JoinDiffers(kept: seq<Text>, lines: seq<Text>)
    requires |kept| < |lines| && lines != [""]
    requires forall k :: 0 <= k < |kept| ==> OneLine(kept[k])
    requires forall k :: 0 <= k < |lines| ==> OneLine(lines[k])
    ensures Join(kept) != Join(lines)
  {
    assert Split("") == [""];
    hide Split;
    SplitJoin(lines);
    if kept != [] { SplitJoin(kept); }
  }

  lemma BlockSlices(before: seq<Text>, marker: Text, rules: seq<Text>, after: seq<Text>)
    ensures var lines := before + [marker] + rules + after;
            && lines[..|before|] == before
            && lines[|before| + 1..|before| + 1 + |rules|] == rules
            && lines[|before| + |rules| + 1..] == after
  {
  }

  /** With nothing edited, the block leaves no trace except a newline added to an unterminated text. */
  lemma AppendRemoveRoundTrip(original: Text, marker: Text, rules: seq<Text>)
    requires OneLine(marker) && forall k :: 0 <= k < |rules| ==> OneLine(rules[k])
    requires marker !in Split(original) && marker !in rules && marker != ""
    ensures RemoveBlock(AppendBlock(original, marker, rules), marker, rules)
         == Changed(if original == "" || EndsLine(original) then original else original + ['\n'])
  {
    hide Split, Join, Positions, RemoveBlock, EndsLine;
    var block := [marker] + rules;
    assert forall k :: 0 <= k < |block| ==> OneLine(block[k]);
    SplitJoin(block);
    var body := BodyLines(original);
    var text := AppendBlock(original, marker, rules);
    BlockLines(original, Join(block));
    Associate(body, [marker], rules);
    JoinSplit(text);
    BodyLinesAreLines(original);
    RemoveGivesSurroundings(body, [[]], marker, rules);
    RestoredLines(original);
  }

  /** A rule of several lines is never found again in the block it was appended with. */
  lemma AppendedRuleOfSeveralLinesCollides(original: Text, marker: Text, rules: seq<Text>, k: nat)
    requires OneLine(marker) && marker != "" && k < |rules| && !OneLine(rules[k])
    ensures RemoveBlock(AppendBlock(original, marker, rules), marker, rules) == Collision
  {
    hide Split, Join, Positions, RemoveBlock, EndsLine;
    var text := AppendBlock(original, marker, rules);
    var block := Join([marker] + rules);
    BlockLines(original, block);
    FirstLineFirst(marker, rules);
    assert marker in Split(block);
    assert marker in Split(text);
    RemoveBlockIff(text, marker, rules);
    SplitLines(text);
    forall before, after ensures !BlockBetween(Split(text), before, marker, rules, after) {
      if BlockBetween(Split(text), before, marker, rules, after) {
        BlockLinesPlain(Split(text), before, marker, rules, after);
      }
    }
  }

  lemma FirstLineFirst(marker: Text, rules: seq<Text>)
    requires OneLine(marker)
    ensures Split(Join([marker] + rules))[0] == marker
  {
    SplitLine(marker);
    if rules == [] {
      assert [marker] + rules == [marker];
    } else {
      assert ([marker] + rules)[1..] == rules;
      SplitAppend(marker, Join(rules));
      assert Join([marker] + rules) == marker + ['\n'] + Join(rules);
    }
  }

  /** The lines a text contributes before an appended block. */
  function BodyLines(original: Text): seq<Text> {
    if original == "" then [] else Body(original)
  }

  lemma BodyLinesAreLines(original: Text)
    ensures forall k :: 0 <= k < |BodyLines(original)| ==>
      OneLine(BodyLines(original)[k]) && BodyLines(original)[k] in Split(original)
  {
    SplitBody(original);
    SplitLines(original);
    assert forall k :: 0 <= k < |BodyLines(original)| ==> BodyLines(original)[k] == Split(original)[k];
  }

  lemma BlockLines(original: Text, block: Text)
    ensures Split(original + (if EndsLine(original) || original == "" then "" else ['\n']) + (block + ['\n']))
         == BodyLines(original) + Split(block) + [[]]
  {
    SplitAppend(block, []);
    var ended := block + ['\n'];
    assert block + ['\n'] + [] == ended;
    if original == "" {
      assert original + "" + ended == ended;
    } else {
      BlockAfter(original, ended);
      assert Body(original) + Split(ended) == Body(original) + Split(block) + [[]];
    }
  }

  lemma BlockAfter(original: Text, ended: Text)
    requires original != ""
    ensures Split(original + (if EndsLine(original) then "" else ['\n']) + ended) == Body(original) + Split(ended)
  {
    var head := if EndsLine(original) then WithoutNewline(original) else original;
    SplitAppend(head, ended);
    assert original + (if EndsLine(original) then "" else ['\n']) + ended == head + ['\n'] + ended;
  }

  lemma RestoredLines(original: Text)
    ensures Join(BodyLines(original) + [[]])
         == if original == "" || EndsLine(original) then original else original + ['\n']
  {
    JoinSplit(original);
    SplitBody(original);
    if original != "" && !EndsLine(original) {
      SplitAppend(original, []);
      assert original + ['\n'] + [] == original + ['\n'];
      JoinSplit(original + ['\n']);
    }
  }
}
