/**
 Exact signalling in src/posix-process-tree-helper.c: a signal by number must reach
 the process with the requested PID and start time or nobody, while processes exit,
 are reaped, and their PIDs are given to others between any two system calls.
 */
module ExactSignal {
  import opened Wrappers

  datatype Signal = SigTerm | SigKill
  datatype Status = Ok | IdentityAbsent | Uncertain | SignalDelivered
  datatype Errno = Success | Esrch | Enosys | Other

  /** One process; the serial number tells two holders of the same PID and start time apart. */
  datatype Process = Process(pid: nat, start: string, serial: nat)

  datatype Sent = Sent(target: Process, signal: Signal)

  /**
   What a call told the helper: that whoever it asked about is gone or has exited, who
   held the PID, or that the call failed for another reason.
   */
  datatype Answer = Absent(pid: nat) | Held(p: Process) | Trouble

  datatype Waited = Stopped | Terminated | Failed

  /** The kernel as the helper sees it: who holds each PID, exited or not, and whom the helper traces. */
  class Kernel {
    var holders: map<nat, Process>
    var traced: Option<Process>
    var next: nat
    ghost var sent: seq<Sent>
    ghost var log: seq<Answer>

    ghost predicate Valid()
      reads this
    {
      && (forall pid :: pid in holders ==> holders[pid].pid == pid && holders[pid].serial < next)
      && (traced.Some? ==> traced.value.pid in holders && holders[traced.value.pid] == traced.value)
    }

    /** A process that holds its PID now has held it ever since it was seen before. */
    twostate predicate Moved()
      reads this
    {
      && old(next) <= next && traced == old(traced) && sent == old(sent)
      && forall pid :: pid in holders && holders[pid].serial < old(next) ==>
           pid in old(holders) && old(holders)[pid] == holders[pid]
    }

    /** Others run: PIDs of reaped processes become free and are taken again. A traced process cannot be reaped. */
    method Interfere()
      requires Valid()
      modifies this
      ensures Valid() && Moved() && log == old(log)
    {
      var steps: nat := *;
      while steps > 0
        invariant Valid() && Moved() && log == old(log)
      {
        var pid: nat := *;
        var start: string := *;
        if pid in holders {
          if traced != Some(holders[pid]) { holders := holders - {pid}; }
        } else {
          holders := holders[pid := Process(pid, start, next)];
          next := next + 1;
        }
        steps := steps - 1;
      }
    }

    method PidfdOpen(pid: nat) returns (r: Errno, bound: Option<Process>)
      requires Valid()
      modifies this
      ensures Valid() && Moved()
      ensures r == Success <==> bound.Some?
      ensures bound.Some? ==> pid in holders && holders[pid] == bound.value
      ensures r == Esrch ==> pid !in holders
      ensures log == old(log) + Told(r, pid)
    {
      Interfere();
      r := *;
      if pid !in holders { r := Esrch; } else if r == Esrch { r := Other; }
      bound := if r == Success then Some(holders[pid]) else None;
      log := log + Told(r, pid);
    }

    /** What is recorded of a call about PID `pid` that answered so. */
    static function Told(r: Errno, pid: nat): seq<Answer> {
      match r
      case Success => []
      case Esrch => [Absent(pid)]
      case _ => [Trouble]
    }

    /** `read_start_time`: absent, unreadable, or the start time of whoever holds the PID now. */
    method ReadStart(pid: nat) returns (failed: bool, start: Option<string>)
      requires Valid()
      modifies this
      ensures Valid() && Moved()
      ensures start.Some? ==> pid in holders && holders[pid].start == start.value && log == old(log) + [Held(holders[pid])]
      ensures !failed && start.None? ==> pid !in holders && log == old(log) + [Absent(pid)]
      ensures failed ==> start.None? && log == old(log) + [Trouble]
    {
      Interfere();
      failed := *;
      if failed {
        log := log + [Trouble];
        return failed, None;
      }
      if pid !in holders {
        log := log + [Absent(pid)];
        return false, None;
      }
      log := log + [Held(holders[pid])];
      return false, Some(holders[pid].start);
    }

    /** `pidfd_send_signal`: reaches the process the descriptor was opened on, if it has not been reaped. */
    method PidfdSend(bound: Process, signal: Signal) returns (r: Errno)
      requires Valid() && bound.serial < next
      modifies this
      ensures Valid() && traced == old(traced)
      ensures r == Success ==>
        && sent == old(sent) + [Sent(bound, signal)]
        && bound.pid in old(holders) && old(holders)[bound.pid] == bound
      ensures r != Success ==> sent == old(sent)
      ensures log == old(log) + Told(r, bound.pid)
    {
      Interfere();
      r := *;
      if bound.pid !in holders || holders[bound.pid] != bound { r := Esrch; }
      if r == Success { sent := sent + [Sent(bound, signal)]; }
      log := log + Told(r, bound.pid);
    }

    method Seize(pid: nat) returns (r: Errno)
      requires Valid() && traced.None?
      modifies this
      ensures Valid() && sent == old(sent)
      ensures r == Success ==> traced.Some? && traced.value.pid == pid
      ensures r != Success ==> traced.None?
      ensures log == old(log) + Told(r, pid)
    {
      Interfere();
      r := *;
      if pid !in holders { r := Esrch; }
      if r == Success { traced := Some(holders[pid]); }
      log := log + Told(r, pid);
    }

    method Interrupt() returns (r: Errno)
      requires Valid() && traced.Some?
      modifies this
      ensures Valid() && sent == old(sent) && traced == old(traced)
      ensures log == old(log) + Told(r, traced.value.pid)
    {
      Interfere();
      r := *;
      log := log + Told(r, traced.value.pid);
    }

    /** Waiting for a traced process that has exited also ends the tracing. */
    method Wait() returns (r: Waited)
      requires Valid() && traced.Some?
      modifies this
      ensures Valid() && sent == old(sent)
      ensures traced == if r == Terminated then None else old(traced)
      ensures r == Terminated ==> log == old(log) + [Absent(old(traced).value.pid)]
      ensures r == Failed ==> log == old(log) + [Trouble]
      ensures r == Stopped ==> log == old(log)
    {
      Interfere();
      r := *;
      if r == Failed { log := log + [Trouble]; }
      if r == Terminated {
        log := log + [Absent(traced.value.pid)];
        traced := None;
      }
    }

    method Detach() returns (r: Errno)
      requires Valid()
      modifies this
      ensures Valid() && sent == old(sent)
      ensures traced == if r == Success then None else old(traced)
      ensures old(log) <= log && (r != Success && r != Esrch ==> Trouble in log[|old(log)|..])
    {
      Interfere();
      r := *;
      if r == Success { traced := None; }
      if r != Success && r != Esrch { log := log + [Trouble]; }
    }

    /** A traced process with the same PID is the same process. */
    ghost predicate NotAnother(p: Process)
      reads `traced
    {
      traced.Some? && traced.value.pid == p.pid ==> traced.value == p
    }

    /** `kill` by number: whoever holds the PID. */
    method Kill(pid: nat, signal: Signal) returns (r: Errno)
      requires Valid()
      modifies this
      ensures Valid() && traced == old(traced)
      ensures r == Success ==>
        exists p: Process :: sent == old(sent) + [Sent(p, signal)] && p.pid == pid && NotAnother(p)
      ensures r != Success ==> sent == old(sent)
      ensures log == old(log) + Told(r, pid)
    {
      Interfere();
      r := *;
      if pid !in holders { r := Esrch; }
      if r == Success { sent := sent + [Sent(holders[pid], signal)]; }
      log := log + Told(r, pid);
    }
  }

  /** Nothing was sent, or the one signal asked for, to a process with exactly that identity. */
  predicate Exact(before: seq<Sent>, after: seq<Sent>, pid: nat, start: string, signal: Signal) {
    || after == before
    || (&& |after| == |before| + 1 && after[..|before|] == before
        && after[|before|].signal == signal
        && after[|before|].target.pid == pid && after[|before|].target.start == start)
  }

  /** A call said that the process asked for is not there, or that another one holds its PID. */
  predicate Denied(before: seq<Answer>, after: seq<Answer>, pid: nat, start: string) {
    exists k :: |before| <= k < |after| && Denies(after[k], pid, start)
  }

  predicate Denies(answer: Answer, pid: nat, start: string) {
    answer == Absent(pid) || (answer.Held? && answer.p.pid == pid && answer.p.start != start)
  }

  /** A call failed. */
  predicate Troubled(before: seq<Answer>, after: seq<Answer>) {
    exists k :: |before| <= k < |after| && after[k].Trouble?
  }

  /** The answers so far only grow, and each outcome but success has its cause among them. */
  predicate Caused(before: seq<Answer>, after: seq<Answer>, pid: nat, start: string, r: Status) {
    && before <= after
    && (r == IdentityAbsent ==> Denied(before, after, pid, start))
    && (r == Uncertain ==> Troubled(before, after))
  }

  lemma CausedWider(w: seq<Answer>, x: seq<Answer>, y: seq<Answer>, z: seq<Answer>, pid: nat, start: string, r: Status)
    requires w <= x && Caused(x, y, pid, start, r) && y <= z
    ensures Caused(w, z, pid, start, r)
  {
    if r == IdentityAbsent {
      var k :| |x| <= k < |y| && Denies(y[k], pid, start);
      assert Denies(z[k], pid, start);
    }
    if r == Uncertain {
      var k :| |x| <= k < |y| && y[k].Trouble?;
      assert z[k].Trouble?;
    }
  }

  /** What the last answer amounts to. */
  lemma CausedBy(before: seq<Answer>, middle: seq<Answer>, after: seq<Answer>, pid: nat, start: string, r: Status)
    requires before <= middle < after
    requires r == IdentityAbsent ==> Denies(after[|middle|], pid, start)
    requires r == Uncertain ==> after[|middle|].Trouble?
    ensures Caused(before, after, pid, start, r)
  {
  }

  /** `exact_signal_with_ptrace`. */
  method ExactSignalWithPtrace(k: Kernel, pid: nat, start: string, signal: Signal) returns (r: Status)
    requires k.Valid() && k.traced.None?
    modifies k
    ensures k.Valid() && Exact(old(k.sent), k.sent, pid, start, signal)
    ensures r == Ok || r == SignalDelivered ==> k.sent != old(k.sent)
    ensures r == IdentityAbsent ==> k.sent == old(k.sent)
    ensures r == SignalDelivered ==> signal == SigKill
    ensures r == Ok ==> signal == SigTerm
    ensures Caused(old(k.log), k.log, pid, start, r)
  {
    hide Caused;
    ghost var log0 := k.log;
    var seized := k.Seize(pid);
    if seized != Success {
      r := if seized == Esrch then IdentityAbsent else Uncertain;
      CausedBy(log0, log0, k.log, pid, start, r);
      return;
    }
    ghost var log1 := k.log;
    var interrupted := k.Interrupt();
    if interrupted != Success {
      r := GiveUp(k, if interrupted == Esrch then IdentityAbsent else Uncertain, pid, start, log0, log1);
      return;
    }
    ghost var log2 := k.log;
    var waited := k.Wait();
    if waited != Stopped {
      r := GiveUp(k, if waited == Terminated then IdentityAbsent else Uncertain, pid, start, log0, log2);
      return;
    }
    ghost var log3 := k.log;
    ghost var pinned := k.traced.value;
    var failed, observed := k.ReadStart(pid);
    assert k.traced == Some(pinned) && k.holders[pid] == pinned;
    if !failed && (observed.None? || observed.value != start) {
      r := GiveUp(k, IdentityAbsent, pid, start, log0, log3);
      return;
    }
    if failed {
      r := GiveUp(k, Uncertain, pid, start, log0, log3);
      return;
    }
    ghost var log4 := k.log;
    var killed := k.Kill(pid, signal);
    if killed != Success {
      r := GiveUp(k, if killed == Esrch then IdentityAbsent else Uncertain, pid, start, log0, log4);
      return;
    }
    ghost var log5 := k.log;
    if signal == SigKill {
      var _ := k.Wait();
      r := SignalDelivered;
      CausedNothing(log0, k.log, pid, start, r);
      return;
    }
    var detached := k.Detach();
    r := if detached == Success || detached == Esrch then Ok else Uncertain;
    CausedByTrouble(log0, log5, k.log, pid, start, r);
  }

  lemma CausedNothing(before: seq<Answer>, after: seq<Answer>, pid: nat, start: string, r: Status)
    requires before <= after && r != IdentityAbsent && r != Uncertain
    ensures Caused(before, after, pid, start, r)
  {
  }

  lemma CausedByTrouble(before: seq<Answer>, middle: seq<Answer>, after: seq<Answer>, pid: nat, start: string, r: Status)
    requires before <= middle <= after && r != IdentityAbsent && (r == Uncertain ==> Trouble in after[|middle|..])
    ensures Caused(before, after, pid, start, r)
  {
    if r == Uncertain {
      var k :| 0 <= k < |after[|middle|..]| && after[|middle|..][k] == Trouble;
      assert after[|middle| + k].Trouble?;
    }
  }

  /** Without a signal: the process is let go, and the answer given last tells why. */
  method GiveUp(k: Kernel, status: Status, pid: nat, start: string, ghost log0: seq<Answer>, ghost last: seq<Answer>)
    returns (r: Status)
    requires k.Valid() && log0 <= last < k.log
    requires status == IdentityAbsent ==> Denies(k.log[|last|], pid, start)
    requires status == Uncertain ==> k.log[|last|].Trouble?
    modifies k
    ensures k.Valid() && k.sent == old(k.sent) && r == status && Caused(log0, k.log, pid, start, r)
  {
    hide Caused;
    CausedBy(log0, last, k.log, pid, start, status);
    ghost var log1 := k.log;
    var _ := k.Detach();
    CausedWider(log0, log0, log1, k.log, pid, start, status);
    return status;
  }

  predicate Digits(text: string) {
    |text| > 0 && forall i :: 0 <= i < |text| ==> '0' <= text[i] <= '9'
  }

  /**
   `exact_signal`. `parsed` is the PID and signal when both texts are valid. Whatever
   the outcome, a replacement of the requested process is never signalled; `Ok` and
   `SignalDelivered` mean the requested process was.
   */
  method SendExactly(k: Kernel, parsed: Option<(nat, Signal)>, start: string, pidfds: bool, forcePtrace: bool)
    returns (r: Status)
    requires k.Valid() && k.traced.None?
    modifies k
    ensures k.Valid()
    ensures parsed.None? || !Digits(start) ==> r == Uncertain && k.sent == old(k.sent)
    ensures parsed.Some? ==> Exact(old(k.sent), k.sent, parsed.value.0, start, parsed.value.1)
    ensures r == Ok || r == SignalDelivered ==> parsed.Some? && k.sent != old(k.sent)
    ensures r == IdentityAbsent ==> k.sent == old(k.sent)
    ensures parsed.Some? && Digits(start) ==> Caused(old(k.log), k.log, parsed.value.0, start, r)
  {
    hide Caused;
    ghost var log0 := k.log;
    if parsed.None? || !Digits(start) { return Uncertain; }
    var (pid, signal) := parsed.value;
    if pidfds && !forcePtrace {
      var opening, bound := k.PidfdOpen(pid);
      if bound.None? && opening != Enosys {
        r := if opening == Esrch then IdentityAbsent else Uncertain;
        CausedBy(log0, log0, k.log, pid, start, r);
        return;
      }
      if bound.Some? {
        ghost var log1 := k.log;
        var failed, observed := k.ReadStart(pid);
        if !failed && (observed.None? || observed.value != start) {
          CausedBy(log0, log1, k.log, pid, start, IdentityAbsent);
          return IdentityAbsent;
        }
        if failed {
          CausedBy(log0, log1, k.log, pid, start, Uncertain);
          return Uncertain;
        }
        ghost var log2 := k.log;
        var sending := k.PidfdSend(bound.value, signal);
        if sending == Success {
          CausedNothing(log0, k.log, pid, start, Ok);
          return Ok;
        }
        if sending != Enosys {
          r := if sending == Esrch then IdentityAbsent else Uncertain;
          CausedBy(log0, log2, k.log, pid, start, r);
          return;
        }
      }
    }
    ghost var log3 := k.log;
    r := ExactSignalWithPtrace(k, pid, start, signal);
    CausedWider(log0, log3, k.log, k.log, pid, start, r);
  }
}
