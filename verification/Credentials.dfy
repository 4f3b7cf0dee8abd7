/**
 Credential mutations of src/github-credentials.mjs: optimistic revisions and a
 bounded window of outcomes, over any run of requests and lost Hosts.
 */
module Credentials {
  import opened Wrappers

  const WINDOW := 256
  const MAX_KEY := 256
  const MAX_TOKEN := 4096

  type ProjectId = string
  type Token = string

  datatype Target = ForProject | ForHost
  datatype Action = Set | Clear | Enable | Disable | OtherAction

  /** `authorized` and `acknowledged` are whether the class and the risk text are the required ones. */
  datatype Content = Content(
    target: Target,
    project: Option<ProjectId>,
    action: Action,
    token: Option<Token>,
    riskText: Option<bool>,
    authorized: bool,
    expected: Option<int>)

  /** `content` is what the fingerprint covers: all but the key and the request ID. */
  datatype Request = Request(requestId: string, key: Option<string>, content: Content)

  datatype Mode = ProjectPat | HostSession
  datatype Status = Status(configured: bool, revision: nat, projectPat: Option<bool>, hostReuse: bool, effective: Option<Mode>)

  datatype Code = ContractInvalid | RiskNotAcknowledged | NotProduction | KeyConflict | RevisionConflict

  datatype Response =
    | Result(requestId: string, status: Status, key: string, expected: int, replay: bool, auditId: string)
    | Failure(requestId: string, code: Code, actualRevision: nat)

  datatype Recorded = Recorded(key: string, content: Content, response: Response)

  datatype State = State(revision: nat, reuse: bool, tokens: map<ProjectId, Token>, outcomes: seq<Recorded>)

  // ------------------------------------------------------------- contract

  predicate Whitespace(c: char) {
    c == ' ' || c == '\t' || c == '\n' || c == '\r' || c == '\0'
  }

  predicate ValidToken(token: Token) {
    1 <= |token| <= MAX_TOKEN && forall i :: 0 <= i < |token| ==> !Whitespace(token[i])
  }

  predicate ValidKey(key: Option<string>) {
    key.Some? && 0 < |key.value| <= MAX_KEY
  }

  predicate ValidAction(c: Content) {
    match c.target
    case ForProject =>
      if c.action == Set then c.token.Some? && ValidToken(c.token.value) else c.action == Clear && c.token.None?
    case ForHost => if c.action == Disable then c.riskText.None? else c.action == Enable
  }

  predicate ValidContract(r: Request) {
    && r.content.authorized && ValidKey(r.key)
    && r.content.expected.Some? && r.content.expected.value >= 0 && ValidAction(r.content)
  }

  /** What is wrong with the request itself, whatever was done before; `production` is whether its project is one. */
  function Objection(r: Request, production: bool): Option<Code> {
    if !ValidContract(r) then Some(ContractInvalid)
    else if r.content.target == ForHost && r.content.action == Enable && r.content.riskText != Some(true) then
      Some(RiskNotAcknowledged)
    else if r.content.target == ForProject && !(r.content.project.Some? && production) then Some(NotProduction)
    else None
  }

  function PublicStatus(s: State, project: Option<ProjectId>): Status {
    var pat := if project.None? then None else Some(project.value in s.tokens);
    Status(pat == Some(true) || s.reuse, s.revision, pat, s.reuse,
           if pat == Some(true) then Some(ProjectPat) else if pat.Some? && s.reuse then Some(HostSession) else None)
  }

  /** The status depends on which projects have a token, never on a token. */
  lemma StatusRevealsNoToken(a: State, b: State, project: Option<ProjectId>)
    requires a.revision == b.revision && a.reuse == b.reuse && a.tokens.Keys == b.tokens.Keys
    ensures PublicStatus(a, project) == PublicStatus(b, project)
  {
    assert project.Some? ==> (project.value in a.tokens <==> project.value in a.tokens.Keys);
  }

  // ------------------------------------------------------- meaning of a run

  /** One accepted action on what is stored, without its bookkeeping. */
  function Effect(tokens: map<ProjectId, Token>, reuse: bool, c: Content): (map<ProjectId, Token>, bool) {
    match c.target
    case ForHost => (tokens, c.action == Enable)
    case ForProject =>
      if c.project.None? then (tokens, reuse)
      else if c.action == Set && c.token.Some? then (tokens[c.project.value := c.token.value], reuse)
      else (tokens - {c.project.value}, reuse)
  }

  function Fold(accepted: seq<Recorded>): (map<ProjectId, Token>, bool) {
    if accepted == [] then (map[], false)
    else
      var before := Fold(accepted[..|accepted| - 1]);
      Effect(before.0, before.1, accepted[|accepted| - 1].content)
  }

  /** The last action on a project decides about its token, whatever else happened. */
  lemma {:induction false} LastActionDecides(accepted: seq<Recorded>, k: nat, project: ProjectId)
    requires k < |accepted| && accepted[k].content.target == ForProject && accepted[k].content.project == Some(project)
    requires forall i :: k < i < |accepted| ==>
      !(accepted[i].content.target == ForProject && accepted[i].content.project == Some(project))
    ensures var c := accepted[k].content;
      Fold(accepted).0.Keys * {project} == (if c.action == Set && c.token.Some? then {project} else {})
    ensures var c := accepted[k].content;
      c.action == Set && c.token.Some? ==> Fold(accepted).0[project] == c.token.value
  {
    if k < |accepted| - 1 {
      LastActionDecides(accepted[..|accepted| - 1], k, project);
    }
  }

  /** Nobody ever decided about the project: there is no token. */
  lemma {:induction false} NoActionNoToken(accepted: seq<Recorded>, project: ProjectId)
    requires forall i :: 0 <= i < |accepted| ==>
      !(accepted[i].content.target == ForProject && accepted[i].content.project == Some(project))
    ensures project !in Fold(accepted).0
  {
    if accepted != [] { NoActionNoToken(accepted[..|accepted| - 1], project); }
  }

  /** Reuse of the host session is on exactly if the last action on the host enabled it. */
  lemma {:induction false} LastHostActionDecides(accepted: seq<Recorded>)
    ensures Fold(accepted).1 <==> exists k :: 0 <= k < |accepted| && LastEnables(accepted, k)
  {
    var last := |accepted| - 1;
    if accepted != [] {
      var before := accepted[..last];
      LastHostActionDecides(before);
      if accepted[last].content.target == ForHost {
        if accepted[last].content.action == Enable { assert LastEnables(accepted, last); }
      } else {
        forall k | 0 <= k < last ensures LastEnables(before, k) <==> LastEnables(accepted, k) {
          assert forall i :: 0 <= i < last ==> before[i] == accepted[i];
        }
      }
    }
  }

  ghost predicate LastEnables(accepted: seq<Recorded>, k: nat)
    requires k < |accepted|
  {
    && accepted[k].content.target == ForHost && accepted[k].content.action == Enable
    && forall i :: k < i < |accepted| ==> accepted[i].content.target == ForProject
  }

  /** The last action on the project set a token. */
  ghost predicate LastSets(accepted: seq<Recorded>, k: nat, project: ProjectId)
    requires k < |accepted|
  {
    && SetsToken(accepted[k].content, project)
    && forall i :: k < i < |accepted| ==> !(accepted[i].content.target == ForProject && accepted[i].content.project == Some(project))
  }

  predicate SetsToken(c: Content, project: ProjectId) {
    c.target == ForProject && c.project == Some(project) && c.action == Set && c.token.Some?
  }

  lemma {:induction false} TokenIffLastSets(accepted: seq<Recorded>, project: ProjectId)
    ensures project in Fold(accepted).0 <==> exists k :: 0 <= k < |accepted| && LastSets(accepted, k, project)
  {
    var last := |accepted| - 1;
    if accepted != [] {
      var before := accepted[..last];
      TokenIffLastSets(before, project);
      if accepted[last].content.target == ForProject && accepted[last].content.project == Some(project) {
        if SetsToken(accepted[last].content, project) { assert LastSets(accepted, last, project); }
      } else {
        forall k | 0 <= k < last ensures LastSets(before, k, project) <==> LastSets(accepted, k, project) {
          assert forall i :: 0 <= i < last ==> before[i] == accepted[i];
        }
      }
    }
  }

  /**
   What the public status of a project says after any accepted requests: its own token
   is used exactly if the last action on it set one; the host's session exactly if not
   and the last action on the host enabled that; and it is configured exactly if one of
   the two can be used.
   */
  lemma EffectiveMode(s: State, accepted: seq<Recorded>, project: ProjectId)
    requires Means(s, accepted)
    ensures var status := PublicStatus(s, Some(project));
      var own := exists k :: 0 <= k < |accepted| && LastSets(accepted, k, project);
      var host := exists k :: 0 <= k < |accepted| && LastEnables(accepted, k);
      && (status.effective == Some(ProjectPat) <==> own) && (status.projectPat == Some(true) <==> own)
      && (status.effective == Some(HostSession) <==> !own && host) && (status.hostReuse <==> host)
      && (status.configured <==> own || host) && status.revision == |accepted|
    ensures PublicStatus(s, None).effective.None? && PublicStatus(s, None).projectPat.None?
  {
    TokenIffLastSets(accepted, project);
    LastHostActionDecides(accepted);
  }

  /** Which requests are objected to, and with which code. */
  lemma ObjectionsAre(r: Request, production: bool)
    ensures var c := r.content;
      var set_ := c.target == ForProject && c.action == Set && c.token.Some? && ValidToken(c.token.value);
      var clear := c.target == ForProject && c.action == Clear && c.token.None?;
      var enable := c.target == ForHost && c.action == Enable;
      var disable := c.target == ForHost && c.action == Disable && c.riskText.None?;
      var wellFormed := c.authorized && r.key.Some? && 1 <= |r.key.value| <= 256 && c.expected.Some? && c.expected.value >= 0
        && (set_ || clear || enable || disable);
      && (Objection(r, production) == Some(ContractInvalid) <==> !wellFormed)
      && (Objection(r, production) == Some(RiskNotAcknowledged) <==> wellFormed && enable && c.riskText != Some(true))
      && (Objection(r, production) == Some(NotProduction) <==>
            wellFormed && c.target == ForProject && !(production && c.project.Some?))
      && Objection(r, production) !in {Some(KeyConflict), Some(RevisionConflict)}
  {
  }

  /** An accepted request named the revision it was accepted at, and nothing objected to it then. */
  ghost predicate Entry(e: Recorded, i: nat) {
    && e.content.expected == Some(i)
    && e.response.Result? && e.response.expected == i && e.response.key == e.key && !e.response.replay
    && Objection(Request("", Some(e.key), e.content), true).None?
  }

  /** The window is the end of the run, with distinct keys. */
  ghost predicate Windowed(outcomes: seq<Recorded>, accepted: seq<Recorded>) {
    outcomes == Latest(accepted) && DistinctKeys(outcomes)
  }

  function Latest(accepted: seq<Recorded>): seq<Recorded> {
    if |accepted| <= WINDOW then accepted else accepted[|accepted| - WINDOW..]
  }

  ghost predicate DistinctKeys(outcomes: seq<Recorded>) {
    forall i, j :: 0 <= i < j < |outcomes| ==> outcomes[i].key != outcomes[j].key
  }

  /** The revision counts the accepted requests and the rest is what they did, in order. */
  ghost predicate Means(s: State, accepted: seq<Recorded>) {
    && s.revision == |accepted|
    && (s.tokens, s.reuse) == Fold(accepted)
    && (forall i :: 0 <= i < |accepted| ==> Entry(accepted[i], i))
    && Windowed(s.outcomes, accepted)
  }

  /** Each revision admits one acceptance; identical requests are accepted once, evicted or not. */
  lemma AcceptedOnce(s: State, accepted: seq<Recorded>, i: nat, j: nat)
    requires Means(s, accepted) && i < |accepted| && j < |accepted|
    requires accepted[i].content.expected == accepted[j].content.expected
    ensures i == j
  {
    assert Entry(accepted[i], i) && Entry(accepted[j], j);
  }

  // ---------------------------------------------------------- the manager

  function FindKey(outcomes: seq<Recorded>, key: string): (found: Option<Recorded>)
    ensures found.Some? ==> found.value in outcomes && found.value.key == key
    ensures found.None? ==> forall o :: o in outcomes ==> o.key != key
    decreases |outcomes|
  {
    if outcomes == [] then None
    else if outcomes[0].key == key then Some(outcomes[0])
    else FindKey(outcomes[1..], key)
  }

  lemma FindsIts(outcomes: seq<Recorded>, k: nat)
    requires k < |outcomes| && DistinctKeys(outcomes)
    ensures FindKey(outcomes, outcomes[k].key) == Some(outcomes[k])
  {
    var found := FindKey(outcomes, outcomes[k].key);
    assert outcomes[k] in outcomes;
    var i :| 0 <= i < |outcomes| && outcomes[i] == found.value;
  }

  /** Where the Host may be lost around the write of the state. */
  datatype Fate = LostBefore | LostAfter | Completes

  class Manager {
    var state: State
    /** Every accepted request in order. */
    ghost var accepted: seq<Recorded>

    ghost predicate Valid()
      reads this
    {
      Means(state, accepted)
    }

    constructor ()
      ensures Valid() && accepted == []
    {
      state, accepted := State(0, false, map[], []), [];
    }

    /**
     `configure`. Exactly the requests without objection, with an unknown key and the
     current revision, are accepted; a known key replays its own outcome or conflicts.
     */
    method Configure(r: Request, production: bool, auditId: string, fate: Fate) returns (response: Option<Response>)
      requires Valid()
      modifies this
      ensures Valid() && old(accepted) <= accepted
      ensures
        var objection := Objection(r, production);
        var known := if r.key.Some? then FindKey(old(state).outcomes, r.key.value) else None;
        && (objection.Some? ==> response == Some(Failure(r.requestId, objection.value, old(state).revision)))
        && (objection.None? && known.Some? && known.value.content != r.content ==>
              response == Some(Failure(r.requestId, KeyConflict, old(state).revision)))
        && (objection.None? && known.Some? && known.value.content == r.content ==>
              response == Some(known.value.response.(requestId := r.requestId, replay := true)))
        && (objection.None? && known.None? && r.content.expected != Some(old(state).revision) ==>
              response == Some(Failure(r.requestId, RevisionConflict, old(state).revision)))
        && (objection.None? && known.None? && r.content.expected == Some(old(state).revision) && fate == LostBefore ==>
              response == None)
        && (accepted != old(accepted) <==>
              objection.None? && known.None? && r.content.expected == Some(old(state).revision) && fate != LostBefore)
      ensures accepted == old(accepted) ==> state == old(state)
      ensures accepted != old(accepted) ==>
        && |accepted| == |old(accepted)| + 1
        && accepted[|accepted| - 1].content == r.content && Some(accepted[|accepted| - 1].key) == r.key
        && accepted[|accepted| - 1].response.status == PublicStatus(state, r.content.project)
        && accepted[|accepted| - 1].response.requestId == r.requestId
        && (response == if fate == Completes then Some(accepted[|accepted| - 1].response) else None)
    {
      hide Means, PublicStatus;
      var code := Objection(r, production);
      var existing := if r.key.Some? then FindKey(state.outcomes, r.key.value) else None;
      if code.None? && existing.Some? {
        if existing.value.content != r.content {
          code := Some(KeyConflict);
        } else {
          WindowHoldsResults(state, accepted);
          var original := existing.value.response;
          return Some(original.(requestId := r.requestId, replay := true));
        }
      }
      if code.None? && r.content.expected != Some(state.revision) { code := Some(RevisionConflict); }
      if code.Some? { return Some(Failure(r.requestId, code.value, state.revision)); }
      if fate == LostBefore { return None; }
      var result := Accept(r, auditId);
      return if fate == LostAfter then None else Some(result);
    }

    /** The mutation itself: state, revision and outcome change together. */
    method Accept(r: Request, auditId: string) returns (result: Response)
      requires Valid() && r.key.Some? && r.content.expected == Some(state.revision)
      requires Objection(r, true).None? && FindKey(state.outcomes, r.key.value).None?
      modifies this
      ensures Valid() && accepted == old(accepted) + [Recorded(r.key.value, r.content, result)]
      ensures result == Result(r.requestId, PublicStatus(state, r.content.project), r.key.value,
                               r.content.expected.value, false, auditId)
    {
      hide Means, PublicStatus;
      var next := state;
      if r.content.target == ForProject {
        if r.content.action == Set {
          next := next.(tokens := next.tokens[r.content.project.value := r.content.token.value]);
        } else {
          next := next.(tokens := next.tokens - {r.content.project.value});
        }
      } else {
        next := next.(reuse := r.content.action == Enable);
      }
      next := next.(revision := next.revision + 1);
      ghost var changed := next;
      var status := PublicStatus(next, r.content.project);
      result := Result(r.requestId, status, r.key.value, r.content.expected.value, false, auditId);
      var entry := Recorded(r.key.value, r.content, result);
      next := next.(outcomes := next.outcomes + [entry]);
      if |next.outcomes| > WINDOW { next := next.(outcomes := next.outcomes[1..]); }
      Accepting(state, accepted, next, entry);
      StatusIgnoresOutcomes(changed, next, r.content.project);
      state := next;
      accepted := accepted + [entry];
    }

    /** A request in the window is answered with its own outcome as long as nothing objects to it now. */
    method Replay(r: Request, i: nat, production: bool, auditId: string) returns (response: Option<Response>)
      requires Valid() && |accepted| - WINDOW <= i < |accepted|
      requires r.key == Some(accepted[i].key) && r.content == accepted[i].content
      modifies this
      ensures Valid() && state == old(state) && accepted == old(accepted)
      ensures response == (if r.content.target == ForHost || production
                           then Some(accepted[i].response.(requestId := r.requestId, replay := true))
                           else Some(Failure(r.requestId, NotProduction, state.revision)))
    {
      assert Entry(accepted[i], i);
      var k := i - (|accepted| - |state.outcomes|);
      assert state.outcomes[k] == accepted[i];
      FindsIts(state.outcomes, k);
      response := Configure(r, production, auditId, Completes);
    }
  }

  lemma WindowHoldsResults(s: State, accepted: seq<Recorded>)
    requires Means(s, accepted)
    ensures forall o :: o in s.outcomes ==> o.response.Result?
  {
    forall o | o in s.outcomes ensures o.response.Result? {
      var k :| 0 <= k < |s.outcomes| && s.outcomes[k] == o;
      assert Entry(accepted[|accepted| - |s.outcomes| + k], |accepted| - |s.outcomes| + k);
    }
  }

  lemma StatusIgnoresOutcomes(a: State, b: State, project: Option<ProjectId>)
    requires a.revision == b.revision && a.reuse == b.reuse && a.tokens == b.tokens
    ensures PublicStatus(a, project) == PublicStatus(b, project)
  {
  }

  lemma Accepting(s: State, accepted: seq<Recorded>, next: State, entry: Recorded)
    requires Means(s, accepted) && entry.content.expected == Some(s.revision)
    requires entry.response.Result? && entry.response.expected == s.revision && entry.response.key == entry.key
    requires !entry.response.replay
    requires Objection(Request("", Some(entry.key), entry.content), true).None?
    requires next.revision == s.revision + 1 && (next.tokens, next.reuse) == Effect(s.tokens, s.reuse, entry.content)
    requires next.outcomes == if |s.outcomes| + 1 > WINDOW then (s.outcomes + [entry])[1..] else s.outcomes + [entry]
    requires forall o :: o in s.outcomes ==> o.key != entry.key
    ensures Means(next, accepted + [entry])
  {
    hide Windowed, Entry, Effect;
    var longer := accepted + [entry];
    assert longer[..|longer| - 1] == accepted;
    WindowMoves(s.outcomes, accepted, next.outcomes, entry);
    forall i | 0 <= i < |longer| ensures Entry(longer[i], i) {
      if i == |accepted| { NewEntry(entry, i); }
    }
  }

  lemma NewEntry(e: Recorded, i: nat)
    requires e.content.expected == Some(i) && e.response.Result? && e.response.expected == i && e.response.key == e.key
    requires !e.response.replay
    requires Objection(Request("", Some(e.key), e.content), true).None?
    ensures Entry(e, i)
  {
  }

  lemma WindowMoves(outcomes: seq<Recorded>, accepted: seq<Recorded>, next: seq<Recorded>, entry: Recorded)
    requires Windowed(outcomes, accepted)
    requires next == if |outcomes| + 1 > WINDOW then (outcomes + [entry])[1..] else outcomes + [entry]
    requires forall o :: o in outcomes ==> o.key != entry.key
    ensures Windowed(next, accepted + [entry])
  {
    hide DistinctKeys, Latest;
    DistinctWith(outcomes, entry);
    DistinctTail(outcomes + [entry]);
    LatestMoves(accepted, entry);
  }

  lemma DistinctTail(all: seq<Recorded>)
    requires all != [] && DistinctKeys(all)
    ensures DistinctKeys(all[1..])
  {
  }

  lemma LatestMoves(accepted: seq<Recorded>, entry: Recorded)
    ensures var pushed := Latest(accepted) + [entry];
      Latest(accepted + [entry]) == if |pushed| > WINDOW then pushed[1..] else pushed
  {
    var longer := accepted + [entry];
    if |accepted| > WINDOW {
      var from := |accepted| - WINDOW;
      assert accepted[from..] + [entry] == longer[from..];
      assert longer[from..][1..] == longer[from + 1..];
    }
  }

  lemma DistinctWith(outcomes: seq<Recorded>, entry: Recorded)
    requires DistinctKeys(outcomes) && forall o :: o in outcomes ==> o.key != entry.key
    ensures DistinctKeys(outcomes + [entry])
  {
    var all := outcomes + [entry];
    forall i, j | 0 <= i < j < |all| ensures all[i].key != all[j].key {
      assert all[i] in outcomes;
    }
  }

  // ------------------------------------------------------------------ runs

  /** A request and what its sender was told, if the Host lived to tell. */
  datatype Exchange = Exchange(request: Request, response: Option<Response>)

  predicate Reported(e: Exchange) {
    e.response.Some? && e.response.value.Result?
  }

  predicate Fresh(e: Exchange) {
    Reported(e) && !e.response.value.replay
  }

  predicate SameRevision(e: Exchange, f: Exchange) {
    Reported(e) && Reported(f) && e.request.content.expected == f.request.content.expected
  }

  /** What is reported is the outcome of the request accepted with the same key and content. */
  ghost predicate ReportOf(e: Exchange, accepted: seq<Recorded>, i: nat) {
    && i < |accepted| && accepted[i].response.Result? && Entry(accepted[i], i)
    && Some(accepted[i].key) == e.request.key && accepted[i].content == e.request.content
    && Reported(e)
    && e.response.value == accepted[i].response.(requestId := e.request.requestId, replay := e.response.value.replay)
  }

  ghost predicate Truthful(e: Exchange, accepted: seq<Recorded>) {
    Reported(e) ==> exists i :: ReportOf(e, accepted, i)
  }

  /** Every report is true, and each acceptance is reported as new once at most, in order. */
  ghost predicate Told(log: seq<Exchange>, accepted: seq<Recorded>) {
    && (forall e :: e in log ==> Truthful(e, accepted))
    && (forall j, k :: 0 <= j < k < |log| && Fresh(log[j]) && Fresh(log[k]) ==>
          log[j].response.value.expected < log[k].response.value.expected)
  }

  lemma TruthfulLater(e: Exchange, accepted: seq<Recorded>, longer: seq<Recorded>)
    requires Truthful(e, accepted) && accepted <= longer
    ensures Truthful(e, longer)
  {
    if Reported(e) {
      var i :| ReportOf(e, accepted, i);
      assert ReportOf(e, longer, i);
    }
  }

  lemma ToldMore(log: seq<Exchange>, accepted: seq<Recorded>, longer: seq<Recorded>, e: Exchange)
    requires Told(log, accepted) && accepted <= longer && Truthful(e, longer)
    requires Fresh(e) ==> e.response.value.expected >= |accepted|
    ensures Told(log + [e], longer)
  {
    hide Truthful;
    forall f | f in log ensures Truthful(f, longer) {
      TruthfulLater(f, accepted, longer);
    }
    forall f | f in log && Fresh(f) ensures f.response.value.expected < |accepted| {
      ReportedBefore(f, accepted);
    }
  }

  lemma ReportedBefore(e: Exchange, accepted: seq<Recorded>)
    requires Truthful(e, accepted) && Reported(e)
    ensures e.response.value.expected < |accepted|
  {
    var i :| ReportOf(e, accepted, i);
  }

  /** Two reports about the same revision are about one acceptance: same key, content, status and audit entry. */
  lemma SameReport(s: State, log: seq<Exchange>, accepted: seq<Recorded>, e: Exchange, f: Exchange)
    requires Means(s, accepted) && Told(log, accepted) && e in log && f in log && SameRevision(e, f)
    ensures e.request.key == f.request.key && e.request.content == f.request.content
    ensures e.response.value.status == f.response.value.status && e.response.value.auditId == f.response.value.auditId
  {
    assert Truthful(e, accepted) && Truthful(f, accepted);
    var i :| ReportOf(e, accepted, i);
    var j :| ReportOf(f, accepted, j);
    AcceptedOnce(s, accepted, i, j);
  }

  /** The manager's answer to one request. */
  method Ask(m: Manager, r: Request, production: bool, auditId: string, fate: Fate) returns (e: Exchange)
    requires m.Valid()
    modifies m
    ensures m.Valid() && old(m.accepted) <= m.accepted && e.request == r
    ensures Truthful(e, m.accepted)
    ensures Fresh(e) ==> e.response.value.expected >= |old(m.accepted)|
  {
    hide Objection, Fold, PublicStatus, FindKey, Means;
    ghost var before := m.accepted;
    ghost var known := if r.key.Some? then FindKey(m.state.outcomes, r.key.value) else None;
    OutcomesAreEntries(m.state, before);
    var response := m.Configure(r, production, auditId, fate);
    e := Exchange(r, response);
    if Reported(e) {
      if m.accepted != before {
        ghost var i := |before|;
        EntryAt(m.state, m.accepted, i);
        assert ReportOf(e, m.accepted, i);
      } else {
        ghost var i :| 0 <= i < |before| && before[i] == known.value && Entry(known.value, i);
        assert ReportOf(e, m.accepted, i);
      }
    }
  }

  lemma EntryAt(s: State, accepted: seq<Recorded>, i: nat)
    requires Means(s, accepted) && i < |accepted|
    ensures Entry(accepted[i], i)
  {
  }

  lemma OutcomesAreEntries(s: State, accepted: seq<Recorded>)
    requires Means(s, accepted)
    ensures forall o :: o in s.outcomes ==> exists i :: 0 <= i < |accepted| && accepted[i] == o && Entry(o, i)
  {
    forall o | o in s.outcomes ensures exists i :: 0 <= i < |accepted| && accepted[i] == o && Entry(o, i) {
      var k :| 0 <= k < |s.outcomes| && s.outcomes[k] == o;
      assert Entry(accepted[|accepted| - |s.outcomes| + k], |accepted| - |s.outcomes| + k);
    }
  }

  /**
   Any run of requests from any clients, with the Host lost around any write: the
   revision counts the acceptances, the stored tokens are what these did in order,
   and every report is the outcome of one acceptance, told as new once at most.
   */
  method Live(m: Manager, steps: nat) returns (log: seq<Exchange>)
    requires m.Valid()
    modifies m
    ensures m.Valid() && old(m.accepted) <= m.accepted
    ensures m.state.revision == |m.accepted| && (m.state.tokens, m.state.reuse) == Fold(m.accepted)
    ensures Told(log, m.accepted)
    ensures forall i :: 0 <= i < |m.accepted| && m.accepted[i].content.target == ForHost && m.accepted[i].content.action == Enable ==>
      m.accepted[i].content.riskText == Some(true)
    ensures forall e, f :: e in log && f in log && SameRevision(e, f) ==>
      && e.request.key == f.request.key && e.request.content == f.request.content
      && e.response.value.status == f.response.value.status && e.response.value.auditId == f.response.value.auditId
  {
    hide Told, Truthful;
    log := [];
    assert Told(log, m.accepted) by { ToldNothing(m.accepted); }
    var done := 0;
    while done < steps
      invariant m.Valid() && old(m.accepted) <= m.accepted && Told(log, m.accepted)
    {
      var r: Request, production: bool, auditId: string, fate: Fate := *, *, *, *;
      ghost var before := m.accepted;
      var e := Ask(m, r, production, auditId, fate);
      ToldMore(log, before, m.accepted, e);
      log := log + [e];
      done := done + 1;
    }
    forall i | 0 <= i < |m.accepted| && m.accepted[i].content.target == ForHost && m.accepted[i].content.action == Enable
      ensures m.accepted[i].content.riskText == Some(true)
    {
      EntryAt(m.state, m.accepted, i);
    }
    forall e, f | e in log && f in log && SameRevision(e, f)
      ensures e.request.key == f.request.key && e.request.content == f.request.content
      ensures e.response.value.status == f.response.value.status && e.response.value.auditId == f.response.value.auditId
    {
      SameReport(m.state, log, m.accepted, e, f);
    }
  }

  lemma ToldNothing(accepted: seq<Recorded>)
    ensures Told([], accepted)
  {
  }
}
