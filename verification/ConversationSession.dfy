/** The session and its observers. */
module ConversationSession {
  // The session object and its observers, updated in place, against the step functions.

  import opened JsonValue
  import opened Conversation
  import opened ConversationRun

  /** The state a session shares with the observers it handed out. */
  class SharedState {
    var epoch: nat
    var completed: Option<Completed>

    constructor ()
      ensures epoch == 0 && completed.None?
    {
      epoch, completed := 0, None;
    }
  }

  /** One observation of one response; clones share the flag. */
  class Observer {
    const state: SharedState
    const facts: Observation
    var committed: bool

    constructor (state: SharedState, facts: Observation)
      ensures this.state == state && this.facts == facts && !committed
    {
      this.state, this.facts, this.committed := state, facts, false;
    }

    /** The session as this observer sees it: only the shared part matters. */
    function Shared(s: Session): Session
      reads state
    {
      s.(epoch := state.epoch, completed := state.completed)
    }

    method Invalidate(ghost s: Session)
      modifies state
      ensures Shared(s) == Invalidated(old(Shared(s)), facts)
      ensures state.epoch == old(state.epoch)
      ensures state.completed == if old(state.epoch) == facts.epoch then None else old(state.completed)
    {
      if state.epoch == facts.epoch {
        state.completed := None;
      }
    }

    /** `commit` */
    method Commit(body: Json, ghost s: Session)
      modifies this, state
      ensures (Shared(s), committed) == CommitStep(old(Shared(s)), facts, old(committed), body)
      ensures state.epoch == old(state.epoch) && (committed <==> old(committed) || !Unpublishable(body))
      ensures state.completed ==
                if old(state.epoch) != facts.epoch then old(state.completed)
                else if Unpublishable(body) then None
                else if old(committed) then old(state.completed)
                else Publication(facts, body)
    {
      if Unpublishable(body) {
        Invalidate(s);
        return;
      }
      if committed {
        return;
      }
      committed := true;
      if state.epoch != facts.epoch {
        return;
      }
      state.completed := Publication(facts, body);
    }

    /** `event`: an error invalidates; the end commits the terminal body, or the assembled one unless it is invalid. */
    method Event(failed: bool, end: bool, terminal: Option<Json>, candidate: Option<Json>, ghost s: Session)
      modifies this, state
      ensures var body := if terminal.Some? then terminal else candidate;
              (Shared(s), committed) ==
                if failed then (Invalidated(old(Shared(s)), facts), old(committed))
                else if end && body.Some? then CommitStep(old(Shared(s)), facts, old(committed), body.value)
                else (old(Shared(s)), old(committed))
    {
      if failed {
        Invalidate(s);
        return;
      }
      if !end {
        return;
      }
      if terminal.Some? {
        Commit(terminal.value, s);
      } else if candidate.Some? {
        Commit(candidate.value, s);
      }
    }
  }

  /** A late observer's commit. */
  datatype Late = Late(observation: Observation, committed: bool, body: Json)

  function LateCommits(s: Session, late: seq<Late>): Session
    decreases |late|
  {
    if late == [] then s
    else LateCommits(CommitStep(s, late[0].observation, late[0].committed, late[0].body).0, late[1..])
  }

  /** One attempt of `complete_in`: its draft, whether sealing and admission succeed, the collected
      response, and the observers that commit before the next attempt. */
  datatype Attempt = Attempt(draft: Draft, recent: bool, sealed: bool, admitted: bool, response: Option<Response>, late: seq<Late>)

  class ConversationSession {
    const state: SharedState
    var transport: Option<nat>
    var pending: Option<Observation>
    var binding: Option<nat>
    var mode: Mode
    var recovery: bool
    var lastReference: Option<string>
    var lastCapability: Option<Capability>
    var disabledThread: Option<Identity>
    var lastIdentity: Option<Identity>

    function View(): Session
      reads this, state
    {
      Session(state.epoch, state.completed, transport, pending, binding, mode, recovery,
              lastReference, lastCapability, disabledThread, lastIdentity)
    }

    constructor ()
      ensures View() == NewSession() && fresh(state)
    {
      state := new SharedState();
      transport, pending, binding, mode, recovery := None, None, None, Full, false;
      lastReference, lastCapability, disabledThread, lastIdentity := None, None, None, None;
    }

    method Reset()
      modifies this, state
      ensures View() == Cleared(old(View()))
      ensures state.epoch == (old(state.epoch) + 1) % 0x1_0000_0000_0000_0000
      ensures state.completed.None? && pending.None? && binding.None? && lastReference.None?
      ensures unchanged(`transport, `mode, `recovery, `lastCapability, `disabledThread, `lastIdentity)
    {
      lastReference := None;
      state.epoch := Advance(state.epoch);
      state.completed := None;
      pending := None;
      binding := None;
    }

    method ClearHistoryPreservingTransport()
      modifies this, state
      ensures View() == ClearedForPool(old(View()))
      ensures state.epoch == (old(state.epoch) + 1) % 0x1_0000_0000_0000_0000
      ensures state.completed.None? && pending.None? && binding.None? && lastReference.None?
      ensures !recovery && lastCapability.None? && lastIdentity.None?
      ensures unchanged(`transport, `mode, `disabledThread)
    {
      Reset();
      recovery := false;
      lastCapability := None;
      lastIdentity := None;
    }

    method Prepare(m: string -> int, d: Draft, recent: bool, token: nat) returns (r: PrepareResult)
      modifies this, state
      ensures (View(), r) == PrepareStep(m, old(View()), d, recent, token)
    {
      hide Eligible, Choose, CapabilityOf, CountItems, Items, Explicit, BoundStep, Stateless;
      if d.countTokens {
        return Refused;
      }
      binding, pending, lastReference := None, None, None;
      if !d.settled {
        return Refused;
      }
      if transport.Some? && transport.value != d.transport {
        Reset();
      }
      transport := Some(d.transport);
      if d.logical.None? {
        return Refused;
      }
      if Stateless(d.profile) {
        Reset();
        binding := Some(token);
        mode := if recovery then Recreate else Full;
        lastCapability, lastIdentity, recovery := Some(Unsupported), None, false;
        return Ready(d.logical.value, mode, CountItems(Unsupported, d.logical.value));
      }
      if d.handshake.None? {
        return Refused;
      }
      r := Bind(m, d, d.logical.value, Identity(d.scope, d.profile, d.handshake.value), recent, token);
    }

    /** The rest of `prepare` once the identity of the conversation is known. */
    method Bind(m: string -> int, d: Draft, logical: Json, identity: Identity, recent: bool, token: nat) returns (r: PrepareResult)
      requires pending.None? && lastReference.None?
      modifies this, state
      ensures (View(), r) == BoundStep(m, old(View()), d, logical, identity, recent, token)
    {
      hide Eligible, Choose, CapabilityOf, CountItems, Items, Explicit;
      var c := CapabilityOf(d.profile);
      var eligible := Eligible(View(), d, logical, identity);
      var chosen := Some(Untouched(c, logical));
      if eligible {
        EligibleFacts(View(), d, logical, identity);
        chosen := Choose(m, state.completed, d, logical, identity, recent);
      }
      state.completed := None;
      if chosen.None? {
        return Refused;
      }
      lastReference := chosen.value.reference;
      mode := if recovery && chosen.value.mode != Continue then Recreate else chosen.value.mode;
      state.epoch := Advance(state.epoch);
      binding := Some(token);
      if eligible {
        pending := Some(Observation(state.epoch, identity, logical, c));
      }
      recovery, lastIdentity, lastCapability := false, Some(identity), Some(c);
      r := Ready(chosen.value.wire, mode, chosen.value.newItems);
    }

    method Dispatch(token: nat) returns (r: Option<Option<Observation>>)
      modifies this
      ensures (View(), r) == DispatchStep(old(View()), token)
      ensures r == if old(binding) == Some(token) then Some(old(pending)) else None
      ensures r.Some? ==> binding.None? && pending.None?
      ensures r.None? ==> unchanged(`binding, `pending)
      ensures unchanged(`transport, `mode, `recovery, `lastReference, `lastCapability, `disabledThread, `lastIdentity)
    {
      if binding != Some(token) {
        return None;
      }
      binding := None;
      r := Some(pending);
      pending := None;
    }

    method Recover(response: Response) returns (accepted: bool)
      modifies this, state
      ensures accepted == Recoverable(old(View()), response) && View() == RecoverStep(old(View()), response)
      ensures !accepted ==> View() == old(View())
      ensures accepted ==>
                && recovery && state.completed.None? && pending.None? && binding.None? && lastReference.None?
                && state.epoch == (old(state.epoch) + 1) % 0x1_0000_0000_0000_0000
                && disabledThread == (if UnsupportedThread(old(View()), response) then old(lastIdentity) else old(disabledThread))
                && unchanged(`transport, `mode, `lastCapability, `lastIdentity)
    {
      hide UnsupportedThread, ReplayableError, NamedMissing;
      if response.body.None? {
        return false;
      }
      var unsupported := UnsupportedThread(View(), response);
      if !unsupported && !(mode == Continue && (ReplayableError(response.status, response.body.value) || NamedMissing(View(), response))) {
        return false;
      }
      if unsupported {
        disabledThread := lastIdentity;
      }
      Reset();
      recovery := true;
      accepted := true;
    }

    method ObserveLate(late: seq<Late>)
      modifies state
      ensures View() == LateCommits(old(View()), late)
    {
      var i := 0;
      assert late[0..] == late;
      while i < |late|
        invariant i <= |late|
        invariant LateCommits(View(), late[i..]) == LateCommits(old(View()), late)
      {
        var o := new Observer(state, late[i].observation);
        o.committed := late[i].committed;
        assert late[i..][0] == late[i] && late[i..][1..] == late[i + 1..];
        o.Commit(late[i].body, View());
        i := i + 1;
      }
      assert late[i..] == [];
    }

    /** `complete_in`: two attempts at most; the second only after the first response authorized a
        recovery, and then it continues nothing, whoever commits late, unless the epoch has wrapped all
        the way round to an observer's. */
    method CompleteIn(m: string -> int, attempts: seq<Attempt>) returns (sent: seq<PrepareResult>)
      requires |attempts| == 2
      modifies this, state
      ensures |sent| <= 2
      ensures |sent| == 2 ==> RecoveryAuthorized(m, old(View()), attempts[0])
      ensures |sent| == 2 && ObserversAreStale(m, old(View()), attempts[0]) ==> Whole(attempts[1].draft, sent[1])
    {
      hide PrepareStep, DispatchStep, RecoverStep, CommitStep, Whole;
      sent := [];
      var attempt := 0;
      while attempt < 2
        invariant 0 <= attempt <= 2 && |sent| <= attempt
        invariant attempt == 0 ==> View() == old(View())
        invariant attempt > 0 && |sent| > 0 ==>
                    && RecoveryAuthorized(m, old(View()), attempts[0])
                    && (attempt == 1 && ObserversAreStale(m, old(View()), attempts[0]) ==> View().completed.None? && View().recovery)
                    && (attempt == 2 && |sent| == 2 && ObserversAreStale(m, old(View()), attempts[0]) ==> Whole(attempts[1].draft, sent[1]))
      {
        var a := attempts[attempt];
        var token := attempt;
        ghost var before := View();
        var prepared := Prepare(m, a.draft, a.recent, token);
        if prepared.Refused? || !a.sealed {
          return;
        }
        if attempt == 1 && before.completed.None? && before.recovery { QuietPrepare(m, before, a.draft, a.recent, token); }
        var dispatched := Dispatch(token);
        if dispatched.None? || !a.admitted {
          return;
        }
        sent := sent + [prepared];
        if a.response.None? {
          return;
        }
        var accepted := false;
        ghost var received := View();
        if attempt == 0 {
          accepted := Recover(a.response.value);
        }
        if !accepted {
          return;
        }
        ObserveLate(a.late);
        RecoveredStaysQuiet(received, a.response.value, a.late);
        attempt := attempt + 1;
      }
    }
  }

  /** The session right after an attempt's dispatch. */
  ghost function Sent(m: string -> int, s: Session, a: Attempt): Session {
    DispatchStep(PrepareStep(m, s, a.draft, a.recent, 0).0, 0).0
  }

  ghost predicate RecoveryAuthorized(m: string -> int, s: Session, a: Attempt) {
    a.response.Some? && Recoverable(Sent(m, s, a), a.response.value)
  }

  /** No late observer has the epoch that the recovery advances to. */
  ghost predicate ObserversAreStale(m: string -> int, s: Session, a: Attempt) { Stale(Sent(m, s, a).epoch, a.late) }

  predicate Stale(epoch: nat, late: seq<Late>) { forall k :: 0 <= k < |late| ==> late[k].observation.epoch != Advance(epoch) }

  /** Observers no younger than the attempt are stale, as long as the epoch does not wrap. */
  lemma OlderAreStale(epoch: nat, late: seq<Late>)
    requires epoch + 1 < U64 && forall k :: 0 <= k < |late| ==> late[k].observation.epoch <= epoch
    ensures Stale(epoch, late)
  {
  }

  lemma {:induction false} LateStaysQuiet(s: Session, late: seq<Late>)
    requires s.completed.None? && forall k :: 0 <= k < |late| ==> late[k].observation.epoch != s.epoch
    ensures LateCommits(s, late) == s
    decreases |late|
  {
    hide Publication, Unpublishable;
    if late != [] { LateStaysQuiet(s, late[1..]); }
  }

  lemma RecoveredStaysQuiet(s: Session, r: Response, late: seq<Late>)
    requires Recoverable(s, r)
    ensures Stale(s.epoch, late) ==>
              var s' := LateCommits(RecoverStep(s, r), late); s'.completed.None? && s'.recovery
  {
    hide Recoverable, UnsupportedThread;
    if Stale(s.epoch, late) { LateStaysQuiet(RecoverStep(s, r), late); }
  }

  /** The condition is exact: a late observer with something to publish does so after the recovery if and
      only if it has the epoch the recovery advances to. */
  lemma LatePublishes(s: Session, r: Response, late: Late)
    requires Recoverable(s, r) && !late.committed && !Unpublishable(late.body) && Publication(late.observation, late.body).Some?
    ensures LateCommits(RecoverStep(s, r), [late]).completed.Some? <==> !Stale(s.epoch, [late])
  {
    hide Recoverable, UnsupportedThread, Publication, Unpublishable;
    assert Stale(s.epoch, [late]) <==> late.observation.epoch != Advance(s.epoch);
  }
}
