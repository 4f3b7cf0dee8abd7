/**
 Whole lives of a Project directory: any operations in any order by any number of
 successive Hosts, each of which may be lost at any system call, with other
 processes at work all along.
 */
module PreparationRuns {
  import opened Wrappers
  import opened ExclusionText
  import opened FileWorld
  import opened HostCalls
  import opened PreparationFile
  import opened GitExclusion
  import opened ExclusionRules
  import opened ProviderPreparation

  /** A file once taken from the public name is public again, justly given up, or still in that capture. */
  lemma CustodyAccounts(fs: Fs, trace: seq<Event>, k: nat, d: Dir, i: Inode)
    requires Valid(fs, trace) && k < |trace| && trace[k] == Took(d, i)
    ensures SettledAfter(trace, k + 1, d, i) || Named(fs, d, i)
  {
    TakenIsAccountedFor(trace, k, d, i);
  }

  /** One operation with arbitrary arguments; its result, like the Host, may be lost. */
  method Operate(h: Host, fuel: nat)
    requires h.Valid()
    modifies h
    ensures h.Valid()
  {
    hide Rely, FileWorld.Valid, Secluded, Shut;
    var operation: nat := *;
    var t: Id := *;
    var expected: Reading := *;
    var source: Option<Text> := *;
    var marker: Option<Text> := *;
    var rules: seq<Text> := *;
    var resume, whenEmpty: bool := *, *;
    var tracked: Option<bool> := *;
    var identity: Option<Inode> := *;
    if operation == 0 {
      var r := Replace(h, expected, source, t, 0, fuel);
    } else if operation == 1 {
      var r;
      ghost var file, verdict;
      r, file, verdict := RecoverReplacement(h, t, 0, fuel, Known(false, map[]));
    } else if operation == 2 {
      var r, current := AppendRules(h, t, resume, marker, rules, fuel);
    } else if operation == 3 {
      var r, current := RemoveRules(h, t, resume, marker, rules, whenEmpty, fuel);
    } else if operation == 4 {
      var r := CreateFile(h, t, source.GetOr(""));
    } else if operation == 5 {
      var r := Finalize(h, t, identity.GetOr(0));
    } else if operation == 6 {
      var r, used := CleanupManifest(h, t, identity, source.GetOr(""), tracked);
    } else if operation == 7 {
      var r := RemoveStaleManifest(h, t, identity, source.GetOr(""), tracked);
    } else if operation == 8 {
      var r := RemoveTemporaryFile(h, t, identity);
    } else {
      h.Interfere();
    }
  }

  /**
   No run loses a generation: every file the Host ever took is accounted for, every
   release was justified when it happened, and without faults of the file system no
   file of another process ever lost the public name.
   */
  method Live(h: Host, operations: nat, fuel: nat)
    requires h.Valid()
    modifies h
    ensures h.Valid()
    ensures forall k, d, i :: 0 <= k < |h.trace| && h.trace[k] == Took(d, i) ==>
      SettledAfter(h.trace, k + 1, d, i) || Named(h.fs, d, i)
    ensures AllJustified(h.trace)
    ensures !h.faults ==> Unclobbered(h.trace)
  {
    var done := 0;
    while done < operations
      invariant h.Valid()
    {
      Operate(h, fuel);
      done := done + 1;
    }
    forall k, d, i | 0 <= k < |h.trace| && h.trace[k] == Took(d, i)
      ensures SettledAfter(h.trace, k + 1, d, i) || Named(h.fs, d, i)
    {
      CustodyAccounts(h.fs, h.trace, k, d, i);
    }
  }
}
