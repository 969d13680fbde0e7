/** Idempotent execution (endpoint/idempotency.go): many requests share a store
    whose operations are atomic. The protocol is a transition system; a run is
    any interleaving of the requests' steps. */
module Idempotency {
  import opened Wrappers

  type Header = map<string, seq<string>>

  /** A scope and a key in it. */
  datatype Slot = Slot(scope: string, key: string)

  /** A request past parsing: its slot and the fingerprint of its operation. */
  datatype Request = Request(slot: Slot, fingerprint: string)

  /** What a returning handler leaves behind. `encoded` is the encoded body, none
      when encoding fails. */
  datatype Outcome =
    | NoResponse
    | Responded(status: int, contentType: string, header: Option<Header>, streamed: bool, encoded: Option<string>)

  /** The stored part of a completed record. */
  datatype Stored = Stored(status: int, contentType: string, header: Option<Header>, body: string)

  /** Reserved while `completed` is none. */
  datatype Record = Record(requestId: nat, fingerprint: string, completed: Option<Stored>)

  datatype Replay = Replay(status: int, contentType: string, header: Header, body: string)

  datatype Reply = Unavailable | InProgress | Conflict | Replayed(replay: Replay) | Served(outcome: Outcome) | Crashed

  /** Where a request is: not yet reserved, in its handler, past its handler, or done. */
  datatype Phase = Waiting | Running | Handled(outcome: Outcome) | Finished(reply: Reply)

  const REPLAY_MARKER := "Idempotent-Replayed"

  /** A 2xx response that is not streamed and can be encoded. */
  predicate Replayable(outcome: Outcome) {
    outcome.Responded? && 200 <= outcome.status <= 299 && !outcome.streamed && outcome.encoded.Some?
  }

  /** `strings.TrimRight(s, "\n")`. */
  function TrimNewlines(s: string): (r: string)
    ensures r <= s
    ensures forall i :: |r| <= i < |s| ==> s[i] == '\n'
    ensures r != "" ==> r[|r| - 1] != '\n'
  {
    if s != "" && s[|s| - 1] == '\n' then TrimNewlines(s[..|s| - 1]) else s
  }

  function Kept(outcome: Outcome): Stored
    requires Replayable(outcome)
  {
    Stored(outcome.status, outcome.contentType, outcome.header, TrimNewlines(outcome.encoded.value))
  }

  /** `replayOrRejectIdempotentRequest`: progress first, then the fingerprint. */
  function Answer(existing: Record, incoming: Request): (r: Reply)
    ensures r.InProgress? || r.Conflict? || r.Replayed?
  {
    if existing.completed == None then InProgress
    else if existing.fingerprint != incoming.fingerprint then Conflict
    else
      var kept := existing.completed.value;
      var header := if kept.header.Some? then kept.header.value else map[];
      Replayed(Replay(kept.status, kept.contentType, header[REPLAY_MARKER := ["true"]], kept.body))
  }

  // ------------------------------------------------------------- protocol

  datatype State = State(requests: map<nat, Request>, phases: map<nat, Phase>, records: map<Slot, Record>)

  /** Store failures say whether the operation took effect all the same. A store
      may discard a record at any time. */
  datatype Step =
    | ReserveNew(r: nat)
    | ReserveExisting(r: nat)
    | ReserveFails(r: nat, created: bool)
    | Returns(r: nat, outcome: Outcome)
    | Panics(r: nat)
    | Release(r: nat, removed: bool)
    | Complete(r: nat, stored: bool)
    | Expire(slot: Slot)

  ghost predicate Sane(s: State) {
    s.phases.Keys == s.requests.Keys
  }

  ghost predicate In(s: State, r: nat, phase: Phase) {
    r in s.requests && r in s.phases && s.phases[r] == phase
  }

  ghost predicate AfterHandler(s: State, r: nat, replayable: bool) {
    r in s.requests && r in s.phases && s.phases[r].Handled? && (Replayable(s.phases[r].outcome) <==> replayable)
  }

  ghost predicate Enabled(s: State, step: Step) {
    match step
    case ReserveNew(r) => In(s, r, Waiting) && s.requests[r].slot !in s.records
    case ReserveExisting(r) => In(s, r, Waiting) && s.requests[r].slot in s.records
    case ReserveFails(r, created) => In(s, r, Waiting) && (created ==> s.requests[r].slot !in s.records)
    case Returns(r, _) => In(s, r, Running)
    case Panics(r) => In(s, r, Running)
    case Release(r, _) => AfterHandler(s, r, false)
    case Complete(r, _) => AfterHandler(s, r, true)
    case Expire(_) => true
  }

  ghost function Moved(s: State, r: nat, phase: Phase): State {
    s.(phases := s.phases[r := phase])
  }

  ghost function Apply(s: State, step: Step): State
    requires Enabled(s, step)
  {
    match step
    case ReserveNew(r) => Moved(Reserved(s, r), r, Running)
    case ReserveExisting(r) => Moved(s, r, Finished(Answer(s.records[s.requests[r].slot], s.requests[r])))
    case ReserveFails(r, created) => Moved(if created then Reserved(s, r) else s, r, Finished(Unavailable))
    case Returns(r, outcome) => Moved(s, r, Handled(outcome))
    case Panics(r) => Moved(s, r, Finished(Crashed))
    case Release(r, removed) =>
      var slot := s.requests[r].slot;
      Moved(if removed then s.(records := s.records - {slot}) else s, r, Finished(Served(s.phases[r].outcome)))
    case Complete(r, stored) =>
      var request, outcome := s.requests[r], s.phases[r].outcome;
      var record := Record(r, request.fingerprint, Some(Kept(outcome)));
      Moved(if stored then s.(records := s.records[request.slot := record]) else s, r, Finished(Served(outcome)))
    case Expire(slot) => s.(records := s.records - {slot})
  }

  ghost function Reserved(s: State, r: nat): State
    requires r in s.requests
  {
    s.(records := s.records[s.requests[r].slot := Record(r, s.requests[r].fingerprint, None)])
  }

  ghost predicate Initial(s: State) {
    Sane(s) && s.records == map[] && forall r :: r in s.phases ==> s.phases[r] == Waiting
  }

  ghost predicate IsRun(states: seq<State>, steps: seq<Step>) {
    IsPath(states, steps) && Initial(states[0])
  }

  /** `states` are the states before, between and after the `steps`. */
  ghost predicate IsPath(states: seq<State>, steps: seq<Step>) {
    && |states| == |steps| + 1
    && forall i :: 0 <= i < |steps| ==> Enabled(states[i], steps[i]) && states[i + 1] == Apply(states[i], steps[i])
  }

  // ------------------------------------------------------------- the code

  /** A store operation and what the store answered. */
  datatype Call =
    | DidReserve(slot: Slot, record: Record, answer: Result<Option<Record>, ()>)
    | DidComplete(slot: Slot, record: Record, ok: bool)
    | DidRelease(slot: Slot, ok: bool)

  /** A store whose operations are atomic. A failing operation may have taken
      effect or not; those of a reliable store do not fail. */
  class Store {
    const reliable: bool
    var records: map<Slot, Record>
    ghost var calls: seq<Call>

    constructor (reliable: bool)
      ensures this.reliable == reliable && records == map[] && calls == []
    {
      this.reliable, records, calls := reliable, map[], [];
    }

    /** Reserves the slot, or returns the record that is there. */
    method Reserve(slot: Slot, record: Record) returns (existing: Result<Option<Record>, ()>)
      modifies this
      ensures calls == old(calls) + [DidReserve(slot, record, existing)]
      ensures reliable ==> existing.Ok?
      ensures existing.Ok? ==> existing.value == if slot in old(records) then Some(old(records)[slot]) else None
      ensures existing.Ok? ==> records == if slot in old(records) then old(records) else old(records)[slot := record]
      ensures existing.Err? ==>
        records == old(records) || (slot !in old(records) && records == old(records)[slot := record])
    {
      var fails, created := *, *;
      if fails && !reliable {
        if created && slot !in records { records := records[slot := record]; }
        existing := Err(());
      } else if slot in records {
        existing := Ok(Some(records[slot]));
      } else {
        records := records[slot := record];
        existing := Ok(None);
      }
      calls := calls + [DidReserve(slot, record, existing)];
    }

    method Complete(slot: Slot, record: Record) returns (ok: bool)
      modifies this
      ensures calls == old(calls) + [DidComplete(slot, record, ok)]
      ensures reliable ==> ok
      ensures ok ==> records == old(records)[slot := record]
      ensures !ok ==> records == old(records) || records == old(records)[slot := record]
    {
      var fails, stored := *, *;
      ok := reliable || !fails;
      if ok || stored { records := records[slot := record]; }
      calls := calls + [DidComplete(slot, record, ok)];
    }

    method Release(slot: Slot) returns (ok: bool)
      modifies this
      ensures calls == old(calls) + [DidRelease(slot, ok)]
      ensures reliable ==> ok
      ensures ok ==> records == old(records) - {slot}
      ensures !ok ==> records == old(records) || records == old(records) - {slot}
    {
      var fails, removed := *, *;
      ok := reliable || !fails;
      if ok || removed { records := records - {slot}; }
      calls := calls + [DidRelease(slot, ok)];
    }
  }

  /** `kept` is `body` without its trailing newlines. */
  ghost predicate WithoutNewlines(kept: string, body: string) {
    && kept <= body && (kept != "" ==> kept[|kept| - 1] != '\n')
    && forall i :: |kept| <= i < |body| ==> body[i] == '\n'
  }

  /** The record of a completed run: its status, type, header and trimmed body. */
  ghost predicate Completes(record: Record, r: nat, request: Request, outcome: Outcome) {
    && record.requestId == r && record.fingerprint == request.fingerprint && record.completed.Some?
    && outcome.Responded? && outcome.encoded.Some?
    && record.completed.value.status == outcome.status
    && record.completed.value.contentType == outcome.contentType
    && record.completed.value.header == outcome.header
    && WithoutNewlines(record.completed.value.body, outcome.encoded.value)
  }

  /** What the request with an existing record is told: to wait while it is
      reserved, a conflict if it was another operation's, and otherwise the stored
      response with the replay marker among its headers. */
  ghost predicate Tells(reply: Reply, existing: Record, request: Request) {
    match existing.completed
    case None => reply == InProgress
    case Some(kept) =>
      if existing.fingerprint != request.fingerprint then reply == Conflict
      else
        && reply.Replayed?
        && reply.replay.status == kept.status && reply.replay.contentType == kept.contentType
        && reply.replay.body == kept.body
        && REPLAY_MARKER in reply.replay.header && reply.replay.header[REPLAY_MARKER] == ["true"]
        && (forall h :: h in reply.replay.header ==> h == REPLAY_MARKER || (kept.header.Some? && h in kept.header.value))
        && (kept.header.Some? ==> forall h :: h in kept.header.value && h != REPLAY_MARKER ==>
              h in reply.replay.header && reply.replay.header[h] == kept.header.value[h])
  }

  lemma AnswerTells(existing: Record, request: Request)
    ensures Tells(Answer(existing, request), existing, request)
  {
  }

  /** The store call that ends a request after its handler: a completion with the
      response of a run that can be replayed, a release otherwise. */
  ghost predicate Settles(call: Call, r: nat, request: Request, outcome: Outcome) {
    call.slot == request.slot &&
    if outcome.Responded? && 200 <= outcome.status <= 299 && !outcome.streamed && outcome.encoded.Some? then call.DidComplete? && Completes(call.record, r, request, outcome)
    else call.DidRelease?
  }

  /** The calls of one request and the reply they lead to: one reservation, and
      after it, if the slot was free, the handler and one completion or release. */
  ghost predicate Handles(calls: seq<Call>, r: nat, request: Request, behaviour: Option<Outcome>, reply: Reply) {
    && calls != [] && calls[0].DidReserve? && calls[0].slot == request.slot
    && calls[0].record == Record(r, request.fingerprint, None)
    && match calls[0].answer
       case Err(_) => reply == Unavailable && |calls| == 1
       case Ok(Some(existing)) => Tells(reply, existing, request) && |calls| == 1
       case Ok(None) =>
         match behaviour
         case None => reply == Crashed && |calls| == 1
         case Some(outcome) => reply == Served(outcome) && |calls| == 2 && Settles(calls[1], r, request, outcome)
  }

  /** What a store that does not fail holds before and after the request: a record
      that is there decides the reply and stays. A free slot is reserved after a
      panic, completed after a response that can be replayed, and free otherwise. */
  ghost predicate Delivers(
    before: map<Slot, Record>, after: map<Slot, Record>, r: nat, request: Request, behaviour: Option<Outcome>, reply: Reply)
  {
    if request.slot in before then Tells(reply, before[request.slot], request) && after == before
    else
      match behaviour
      case None => reply == Crashed && after == before[request.slot := Record(r, request.fingerprint, None)]
      case Some(outcome) =>
        reply == Served(outcome) &&
        if Replayable(outcome)
        then request.slot in after && Completes(after[request.slot], r, request, outcome) && after - {request.slot} == before
        else after == before
  }

  /** The code of one request, run without interruption: the store is asked to
      reserve, the reply follows its answer, and the handler runs exactly after a
      reservation of its own. It is a path of the protocol that moves only this
      request and leaves the store as it says. `behaviour` is what the handler
      does when called; none stands for a panic. */
  method HandleIdempotently(store: Store, r: nat, request: Request, behaviour: Option<Outcome>, ghost s: State)
    returns (reply: Reply, ghost states: seq<State>, ghost steps: seq<Step>)
    requires Sane(s) && In(s, r, Waiting) && s.requests[r] == request && s.records == store.records
    modifies store
    ensures IsPath(states, steps) && states[0] == s
    ensures states[|steps|].records == store.records
    ensures In(states[|steps|], r, Finished(reply))
    ensures forall i :: 0 <= i < |steps| ==> !steps[i].Expire? && steps[i].r == r
    ensures reply.Served? || reply.Crashed? <==> ReserveNew(r) in steps
    ensures old(store.calls) <= store.calls
    ensures Handles(store.calls[|old(store.calls)|..], r, request, behaviour, reply)
    ensures store.reliable ==> Delivers(old(store.records), store.records, r, request, behaviour, reply)
  {
    hide IsPath, Answer, TrimNewlines, Tells, Settles, Completes, Replayable, Kept;
    ghost var before := store.records;
    states, steps := [s], [];
    StartPath(s);
    var record := Record(r, request.fingerprint, None);
    var existing := store.Reserve(request.slot, record);
    if existing.Err? {
      states, steps := Extended(states, steps, s, ReserveFails(r, store.records != s.records));
      return Unavailable, states, steps;
    }
    if existing.value.Some? {
      AnswerTells(existing.value.value, request);
      reply := Answer(existing.value.value, request);
      states, steps := Extended(states, steps, s, ReserveExisting(r));
      return;
    }
    states, steps := Extended(states, steps, s, ReserveNew(r));
    if behaviour.None? {
      states, steps := Extended(states, steps, states[1], Panics(r));
      return Crashed, states, steps;
    }
    var outcome := behaviour.value;
    reply := Served(outcome);
    states, steps := Extended(states, steps, states[1], Returns(r, outcome));
    ghost var last := Settle(store, r, request, outcome, states[2]);
    states, steps := Extended(states, steps, states[2], last);
    if store.reliable { SlotReturned(before, store.records, r, request, outcome); }
  }

  /** What becomes of a free slot that is reserved and then written or released. */
  lemma SlotReturned(before: map<Slot, Record>, after: map<Slot, Record>, r: nat, request: Request, outcome: Outcome)
    requires request.slot !in before
    requires var reserved := before[request.slot := Record(r, request.fingerprint, None)];
             if Replayable(outcome)
             then request.slot in after && Completes(after[request.slot], r, request, outcome) &&
                  after == reserved[request.slot := after[request.slot]]
             else after == reserved - {request.slot}
    ensures Delivers(before, after, r, request, Some(outcome), Served(outcome))
  {
    hide Replayable, Completes;
    if Replayable(outcome) { assert after - {request.slot} == before; }
  }

  /** The part after the handler: one release or one completion. */
  method Settle(store: Store, r: nat, request: Request, outcome: Outcome, ghost s: State) returns (ghost step: Step)
    requires In(s, r, Handled(outcome)) && s.requests[r] == request && s.records == store.records
    modifies store
    ensures (step.Release? || step.Complete?) && step.r == r && Enabled(s, step)
    ensures Apply(s, step).records == store.records && In(Apply(s, step), r, Finished(Served(outcome)))
    ensures |store.calls| == |old(store.calls)| + 1 && old(store.calls) <= store.calls
    ensures Settles(store.calls[|old(store.calls)|], r, request, outcome)
    ensures store.reliable ==>
      if Replayable(outcome)
      then request.slot in store.records && Completes(store.records[request.slot], r, request, outcome) &&
           store.records == old(store.records)[request.slot := store.records[request.slot]]
      else store.records == old(store.records) - {request.slot}
  {
    hide TrimNewlines;
    if outcome.NoResponse? || outcome.status < 200 || outcome.status > 299 || outcome.streamed {
      var ok := store.Release(request.slot);
      return Release(r, store.records != s.records);
    }
    if outcome.encoded.None? {
      var ok := store.Release(request.slot);
      return Release(r, store.records != s.records);
    }
    var record := Record(r, request.fingerprint, Some(Stored(outcome.status, outcome.contentType, outcome.header,
                                                             TrimNewlines(outcome.encoded.value))));
    assert Completes(record, r, request, outcome);
    var ok := store.Complete(request.slot, record);
    return Complete(r, store.records != s.records);
  }

  lemma StartPath(s: State)
    ensures IsPath([s], [])
  {
  }

  lemma Extended(states: seq<State>, steps: seq<Step>, last: State, step: Step)
    returns (longer: seq<State>, more: seq<Step>)
    requires IsPath(states, steps) && states[|steps|] == last && Enabled(last, step)
    ensures IsPath(longer, more) && longer == states + [Apply(last, step)] && more == steps + [step]
  {
    hide Enabled, Apply;
    longer, more := states + [Apply(last, step)], steps + [step];
  }

  // ------------------------------------------------------------ invariant

  /** Between a reservation of its own and the store call that ends it. */
  ghost predicate Owns(s: State, r: nat) {
    r in s.phases && (s.phases[r].Running? || s.phases[r].Handled?)
  }

  /** The handler has run to a response that can be replayed. */
  ghost predicate Succeeded(s: State, r: nat) {
    r in s.phases &&
    match s.phases[r]
    case Handled(outcome) => Replayable(outcome)
    case Finished(Served(outcome)) => Replayable(outcome)
    case _ => false
  }

  ghost function OutcomeOf(s: State, r: nat): Outcome
    requires Succeeded(s, r)
  {
    match s.phases[r]
    case Handled(outcome) => outcome
    case Finished(Served(outcome)) => outcome
  }

  ghost predicate Panicked(s: State, r: nat) {
    r in s.phases && s.phases[r] == Finished(Crashed)
  }

  ghost predicate OnSlot(s: State, r: nat, slot: Slot) {
    r in s.requests && s.requests[r].slot == slot
  }

  /** The request's slot has a record that the request created. */
  ghost predicate Holds(s: State, r: nat) {
    r in s.requests && s.requests[r].slot in s.records && s.records[s.requests[r].slot].requestId == r
  }

  /** A record belongs to a request on its slot; a completed one to a request
      that succeeded, with its response. */
  ghost predicate Faithful(s: State, slot: Slot)
    requires slot in s.records
  {
    var record := s.records[slot];
    var r := record.requestId;
    && r in s.requests && s.requests[r].slot == slot && s.requests[r].fingerprint == record.fingerprint
    && (record.completed.Some? ==>
          Succeeded(s, r) && record.completed.value == Kept(OutcomeOf(s, r)) && s.phases[r].Finished?)
  }

  /** Holds in every run, records discarded or not. */
  ghost predicate Inv(s: State) {
    Sane(s) && forall slot :: slot in s.records ==> Faithful(s, slot)
  }

  /** Every owner of the slot has its own record there. */
  ghost predicate OwnersHold(s: State, slot: Slot) {
    forall r :: Owns(s, r) && OnSlot(s, r, slot) ==> Holds(s, r)
  }

  lemma InitialInv(s: State)
    requires Initial(s)
    ensures Inv(s)
  {
  }

  /** Every step keeps the invariant. */
  lemma StepKeepsInv(s: State, step: Step)
    requires Inv(s) && Enabled(s, step)
    ensures Inv(Apply(s, step))
  {
    hide Faithful, Answer, Kept;
    forall slot | slot in Apply(s, step).records ensures Faithful(Apply(s, step), slot) {
      FaithfulKept(s, step, slot);
    }
  }

  lemma FaithfulKept(s: State, step: Step, slot: Slot)
    requires Inv(s) && Enabled(s, step) && slot in Apply(s, step).records
    ensures Faithful(Apply(s, step), slot)
  {
    hide Answer, Kept;
    if slot in s.records && Apply(s, step).records[slot] == s.records[slot] { RecordKept(s, step, slot); }
  }

  /** A record that the step leaves alone stays faithful. */
  lemma RecordKept(s: State, step: Step, slot: Slot)
    requires Inv(s) && Enabled(s, step) && slot in s.records
    requires slot in Apply(s, step).records && Apply(s, step).records[slot] == s.records[slot]
    ensures Faithful(Apply(s, step), slot)
  {
    hide Answer, Kept, Succeeded, OutcomeOf;
    assert Faithful(s, slot);
    EndStays(s, step, s.records[slot].requestId);
  }

  /** A step keeps the successes and crashes there are. */
  lemma EndStays(s: State, step: Step, r: nat)
    requires Enabled(s, step)
    ensures Succeeded(s, r) ==> Succeeded(Apply(s, step), r) && OutcomeOf(Apply(s, step), r) == OutcomeOf(s, r)
    ensures Panicked(s, r) ==> Panicked(Apply(s, step), r)
  {
    hide Answer, Kept, Replayable;
  }

  lemma {:induction false} RunKeepsInv(states: seq<State>, steps: seq<Step>, i: nat)
    requires IsRun(states, steps) && i < |states|
    ensures Inv(states[i])
  {
    hide Inv, Enabled, Apply, Initial;
    if i == 0 {
      InitialInv(states[0]);
    } else {
      RunKeepsInv(states, steps, i - 1);
      StepKeepsInv(states[i - 1], steps[i - 1]);
    }
  }

  /** Requests never change. */
  lemma {:induction false} RequestsStay(states: seq<State>, steps: seq<Step>, i: nat, j: nat)
    requires IsPath(states, steps) && i <= j < |states|
    ensures states[j].requests == states[i].requests
  {
    hide Answer, Kept;
    if i < j { RequestsStay(states, steps, i, j - 1); }
  }

  /** A success stays one, with the same outcome; so does a crash. */
  lemma {:induction false} EndsStay(states: seq<State>, steps: seq<Step>, i: nat, j: nat, r: nat)
    requires IsPath(states, steps) && i <= j < |states|
    ensures Succeeded(states[i], r) ==> Succeeded(states[j], r) && OutcomeOf(states[j], r) == OutcomeOf(states[i], r)
    ensures Panicked(states[i], r) ==> Panicked(states[j], r)
  {
    hide Succeeded, OutcomeOf, Panicked, Enabled, Apply;
    if i < j {
      EndsStay(states, steps, i, j - 1, r);
      EndStays(states[j - 1], steps[j - 1], r);
    }
  }

  // -------------------------------------------------------------- replays

  /** A success was an earlier return of the handler. */
  lemma {:induction false} SuccessReturned(states: seq<State>, steps: seq<Step>, j: nat, r: nat) returns (i: nat)
    requires IsRun(states, steps) && j < |states| && Succeeded(states[j], r)
    ensures i < j && steps[i] == Returns(r, OutcomeOf(states[j], r))
  {
    if Succeeded(states[j - 1], r) {
      EndStays(states[j - 1], steps[j - 1], r);
      i := SuccessReturned(states, steps, j - 1, r);
    } else {
      i := j - 1;
    }
  }

  /** The response recorded for a slot, as a replay presents it. */
  ghost predicate Presents(replay: Replay, outcome: Outcome) {
    && Replayable(outcome)
    && replay.status == outcome.status
    && replay.contentType == outcome.contentType
    && replay.header == (if outcome.header.Some? then outcome.header.value else map[])[REPLAY_MARKER := ["true"]]
    && replay.body == TrimNewlines(outcome.encoded.value)
  }

  /** In every run, however often records are discarded, every replay presents
      the response of one earlier handler run on the slot, and goes only to a
      request with that run's fingerprint. */
  lemma ReplaysTheRun(states: seq<State>, steps: seq<Step>, j: nat) returns (i: nat)
    requires IsRun(states, steps) && j < |steps| && steps[j].ReserveExisting?
    requires states[j + 1].phases[steps[j].r].reply.Replayed?
    ensures i < j && steps[i].Returns?
    ensures Presents(states[j + 1].phases[steps[j].r].reply.replay, steps[i].outcome)
    ensures states[i].requests[steps[i].r] == states[j].requests[steps[j].r]
  {
    var q := states[j].requests[steps[j].r];
    RunKeepsInv(states, steps, j);
    assert Faithful(states[j], q.slot);
    i := SuccessReturned(states, steps, j, states[j].records[q.slot].requestId);
    RequestsStay(states, steps, i, j);
  }

  // ------------------------------------------------------------ exclusion

  /** At most one request owns the slot. */
  ghost predicate Exclusive(s: State, slot: Slot) {
    forall q, r :: Owns(s, q) && Owns(s, r) && OnSlot(s, q, slot) && OnSlot(s, r, slot) ==> q == r
  }

  ghost predicate Owned(s: State, slot: Slot) {
    exists r :: Owns(s, r) && OnSlot(s, r, slot)
  }

  ghost predicate Awaited(s: State, slot: Slot) {
    exists r :: In(s, r, Waiting) && OnSlot(s, r, slot)
  }

  /** None of the first `n` steps discards the slot's record under an owner. */
  ghost predicate Undisturbed(states: seq<State>, steps: seq<Step>, slot: Slot, n: nat)
    requires n <= |steps| < |states|
  {
    forall i :: 0 <= i < n ==> steps[i] == Expire(slot) ==> !Owned(states[i], slot)
  }

  lemma OwnersExclude(s: State, slot: Slot)
    requires OwnersHold(s, slot)
    ensures Exclusive(s, slot)
  {
    forall q, r | Owns(s, q) && Owns(s, r) && OnSlot(s, q, slot) && OnSlot(s, r, slot) ensures q == r {
      assert Holds(s, q) && Holds(s, r);
    }
  }

  /** Only discarding the record under an owner leaves an owner without it. */
  lemma StepKeepsOwners(s: State, step: Step, slot: Slot)
    requires Sane(s) && OwnersHold(s, slot) && Enabled(s, step)
    requires step == Expire(slot) ==> !Owned(s, slot)
    ensures OwnersHold(Apply(s, step), slot)
  {
    hide Answer, Kept;
    var t := Apply(s, step);
    forall r | Owns(t, r) && OnSlot(t, r, slot) ensures Holds(t, r) {
      OwnerKept(s, step, slot, r);
    }
  }

  lemma OwnerKept(s: State, step: Step, slot: Slot, r: nat)
    requires Sane(s) && OwnersHold(s, slot) && Enabled(s, step)
    requires step == Expire(slot) ==> !Owned(s, slot)
    requires Owns(Apply(s, step), r) && OnSlot(Apply(s, step), r, slot)
    ensures Holds(Apply(s, step), r)
  {
    hide Answer, Kept;
    if step != ReserveNew(r) { assert Owns(s, r) && OnSlot(s, r, slot); }
    if step.Release? || step.Complete? { assert Owns(s, step.r) && (OnSlot(s, step.r, slot) ==> Holds(s, step.r)); }
  }

  lemma {:induction false} PathKeepsOwners(states: seq<State>, steps: seq<Step>, slot: Slot, i: nat)
    requires IsPath(states, steps) && i <= |steps| && Sane(states[0]) && OwnersHold(states[0], slot)
    requires Undisturbed(states, steps, slot, i)
    ensures Sane(states[i]) && OwnersHold(states[i], slot)
  {
    hide OwnersHold, Owned, Enabled, Apply;
    if i > 0 {
      PathKeepsOwners(states, steps, slot, i - 1);
      StepKeepsOwners(states[i - 1], steps[i - 1], slot);
      StepKeepsSane(states[i - 1], steps[i - 1]);
    }
  }

  lemma StepKeepsSane(s: State, step: Step)
    requires Sane(s) && Enabled(s, step)
    ensures Sane(Apply(s, step))
  {
    hide Answer, Kept;
  }

  /** In every interleaving, as long as the slot's record was never discarded
      under an owner, at most one request on the slot is between its reservation
      and the end of its completion or release. */
  lemma MutualExclusion(states: seq<State>, steps: seq<Step>, slot: Slot, i: nat)
    requires IsRun(states, steps) && i <= |steps| && Undisturbed(states, steps, slot, i)
    ensures Exclusive(states[i], slot)
  {
    hide OwnersHold, Undisturbed, Exclusive, Enabled, Apply;
    RunStartsUnowned(states[0], slot);
    PathKeepsOwners(states, steps, slot, i);
    OwnersExclude(states[i], slot);
  }

  lemma RunStartsUnowned(s: State, slot: Slot)
    requires Initial(s)
    ensures OwnersHold(s, slot)
  {
  }

  /** Whatever the requests do from `t` on, the slot keeps at most one owner,
      unless its record is discarded under one. */
  ghost predicate SafeFrom(t: State, slot: Slot) {
    forall states, steps :: IsPath(states, steps) && states[0] == t && Undisturbed(states, steps, slot, |steps|) ==>
      forall i :: 0 <= i < |states| ==> Exclusive(states[i], slot)
  }

  /** Discarding the record of a slot, at any point of such a run, is safe if and
      only if no request owns the slot or no other is waiting for it. */
  lemma ExpirySafeExactly(states: seq<State>, steps: seq<Step>, slot: Slot)
    requires IsRun(states, steps) && Undisturbed(states, steps, slot, |steps|)
    ensures var s := states[|steps|];
            SafeFrom(Apply(s, Expire(slot)), slot) <==> !(Owned(s, slot) && Awaited(s, slot))
  {
    hide SafeFrom, Undisturbed, OwnersHold, Enabled;
    var s := states[|steps|];
    RunStartsUnowned(states[0], slot);
    PathKeepsOwners(states, steps, slot, |steps|);
    if Owned(s, slot) && Awaited(s, slot) {
      ExpiryBreaks(s, slot);
    } else {
      ExpirySafe(s, slot);
    }
  }

  /** With an owner and someone waiting, the waiting request can reserve at once,
      and then both own the slot. */
  lemma ExpiryBreaks(s: State, slot: Slot)
    requires Owned(s, slot) && Awaited(s, slot)
    ensures !SafeFrom(Apply(s, Expire(slot)), slot)
  {
    hide Answer, Kept;
    var t := Apply(s, Expire(slot));
    var r :| Owns(s, r) && OnSlot(s, r, slot);
    var q :| In(s, q, Waiting) && OnSlot(s, q, slot);
    var u := Apply(t, ReserveNew(q));
    StartPath(t);
    var states, steps := Extended([t], [], t, ReserveNew(q));
    assert Undisturbed(states, steps, slot, |steps|);
    assert Owns(u, r) && Owns(u, q) && OnSlot(u, r, slot) && OnSlot(u, q, slot) && states[1] == u;
    assert !Exclusive(states[1], slot);
  }

  lemma ExpirySafe(s: State, slot: Slot)
    requires Sane(s) && OwnersHold(s, slot) && !(Owned(s, slot) && Awaited(s, slot))
    ensures SafeFrom(Apply(s, Expire(slot)), slot)
  {
    hide OwnersHold, Undisturbed, Exclusive, Owned, Awaited;
    var t := Apply(s, Expire(slot));
    OwnersExclude(s, slot);
    DiscardedSame(s, slot);
    forall states, steps, i: nat
      | IsPath(states, steps) && states[0] == t && Undisturbed(states, steps, slot, |steps|) && i < |states|
      ensures Exclusive(states[i], slot)
    {
      if Owned(s, slot) {
        NobodyNew(states, steps, slot, i);
      } else {
        UndisturbedPrefix(states, steps, slot, i);
        PathKeepsOwners(states, steps, slot, i);
        OwnersExclude(states[i], slot);
      }
    }
  }

  lemma UndisturbedPrefix(states: seq<State>, steps: seq<Step>, slot: Slot, i: nat)
    requires i <= |steps| < |states| && Undisturbed(states, steps, slot, |steps|)
    ensures Undisturbed(states, steps, slot, i)
  {
  }

  /** Discarding a record moves no request. */
  lemma DiscardedSame(s: State, slot: Slot)
    requires Sane(s)
    ensures var t := Apply(s, Expire(slot));
            Sane(t) && (Owned(t, slot) <==> Owned(s, slot)) && (Awaited(t, slot) <==> Awaited(s, slot)) &&
            (Exclusive(s, slot) ==> Exclusive(t, slot)) && (!Owned(s, slot) ==> OwnersHold(t, slot))
  {
    var t := Apply(s, Expire(slot));
    if r :| Owns(s, r) && OnSlot(s, r, slot) { assert Owns(t, r) && OnSlot(t, r, slot); }
    if r :| Owns(t, r) && OnSlot(t, r, slot) { assert Owns(s, r) && OnSlot(s, r, slot); }
    if r :| In(s, r, Waiting) && OnSlot(s, r, slot) { assert In(t, r, Waiting) && OnSlot(t, r, slot); }
    if r :| In(t, r, Waiting) && OnSlot(t, r, slot) { assert In(s, r, Waiting) && OnSlot(s, r, slot); }
    forall q, r | Exclusive(s, slot) && Owns(t, q) && Owns(t, r) && OnSlot(t, q, slot) && OnSlot(t, r, slot) ensures q == r {
      assert Owns(s, q) && Owns(s, r) && OnSlot(s, q, slot) && OnSlot(s, r, slot);
    }
  }

  /** With nobody waiting there are no new owners. */
  lemma {:induction false} NobodyNew(states: seq<State>, steps: seq<Step>, slot: Slot, i: nat)
    requires IsPath(states, steps) && i < |states| && !Awaited(states[0], slot) && Exclusive(states[0], slot)
    ensures !Awaited(states[i], slot) && Exclusive(states[i], slot)
  {
    hide Awaited, Exclusive, Enabled, Apply;
    if i > 0 {
      NobodyNew(states, steps, slot, i - 1);
      StepBringsNobody(states[i - 1], steps[i - 1], slot);
    }
  }

  lemma StepBringsNobody(s: State, step: Step, slot: Slot)
    requires Enabled(s, step) && !Awaited(s, slot) && Exclusive(s, slot)
    ensures !Awaited(Apply(s, step), slot) && Exclusive(Apply(s, step), slot)
  {
    hide Answer, Kept;
    var t := Apply(s, step);
    forall r | In(t, r, Waiting) ensures In(s, r, Waiting) && (OnSlot(t, r, slot) <==> OnSlot(s, r, slot)) {}
    forall r | Owns(t, r) && OnSlot(t, r, slot) ensures Owns(s, r) && OnSlot(s, r, slot) {
      assert In(s, r, Waiting) ==> !OnSlot(s, r, slot);
    }
  }

  // ---------------------------------------------------------- no second run

  /** The request has ended for good and still has its record, as has every owner. */
  ghost predicate Settled(s: State, r: nat, slot: Slot) {
    OnSlot(s, r, slot) && (Succeeded(s, r) || Panicked(s, r)) && Holds(s, r) && OwnersHold(s, slot)
  }

  lemma StepKeepsSettled(s: State, step: Step, r: nat, slot: Slot)
    requires Sane(s) && Settled(s, r, slot) && Enabled(s, step) && step != Expire(slot)
    ensures Settled(Apply(s, step), r, slot)
  {
    hide OwnersHold, Answer, Kept;
    EndStays(s, step, r);
    StepKeepsOwners(s, step, slot);
    if step.Release? || step.Complete? { StepperHolds(s, step.r, slot); }
  }

  lemma StepperHolds(s: State, q: nat, slot: Slot)
    requires OwnersHold(s, slot) && Owns(s, q)
    ensures OnSlot(s, q, slot) ==> Holds(s, q)
  {
  }

  ghost predicate ExpiresBetween(steps: seq<Step>, slot: Slot, i: nat, j: nat)
    requires j <= |steps|
  {
    exists k :: i < k < j && steps[k] == Expire(slot)
  }

  lemma {:induction false} SettledLasts(states: seq<State>, steps: seq<Step>, r: nat, slot: Slot, i: nat, j: nat)
    requires IsPath(states, steps) && i < j <= |steps| && !ExpiresBetween(steps, slot, i, j)
    requires Sane(states[i + 1]) && Settled(states[i + 1], r, slot)
    ensures Settled(states[j], r, slot) && Sane(states[j])
  {
    hide Settled, Enabled, Apply;
    if i + 1 < j {
      assert !ExpiresBetween(steps, slot, i, j - 1);
      SettledLasts(states, steps, r, slot, i, j - 1);
      assert steps[j - 1] != Expire(slot);
      StepKeepsSettled(states[j - 1], steps[j - 1], r, slot);
      StepKeepsSane(states[j - 1], steps[j - 1]);
    }
  }

  /** A handler run that ends in a replayable response, or in a panic, settles
      its request. */
  lemma EndSettles(states: seq<State>, steps: seq<Step>, slot: Slot, i: nat)
    requires IsRun(states, steps) && i < |steps| && Undisturbed(states, steps, slot, i)
    requires (steps[i].Returns? && Replayable(steps[i].outcome)) || steps[i].Panics?
    requires OnSlot(states[i], steps[i].r, slot)
    ensures Sane(states[i + 1]) && Settled(states[i + 1], steps[i].r, slot)
  {
    hide OwnersHold, Undisturbed, Answer, Kept, Replayable;
    RunStartsUnowned(states[0], slot);
    PathKeepsOwners(states, steps, slot, i);
    StepperHolds(states[i], steps[i].r, slot);
    StepKeepsOwners(states[i], steps[i], slot);
  }

  /** Once a handler run has ended with an encodable 2xx response, a handler is
      started again on the slot only after its record is discarded, whatever
      happens to the store calls and to other requests, and however often the
      slot expired before without an owner. */
  lemma NoSecondRun(states: seq<State>, steps: seq<Step>, slot: Slot, i: nat, j: nat)
    requires IsRun(states, steps) && i < j < |steps| && Undisturbed(states, steps, slot, i)
    requires steps[i].Returns? && Replayable(steps[i].outcome) && OnSlot(states[i], steps[i].r, slot)
    requires steps[j].ReserveNew? && OnSlot(states[j], steps[j].r, slot)
    ensures ExpiresBetween(steps, slot, i, j)
  {
    hide Undisturbed, ExpiresBetween, OwnersHold, Succeeded, Panicked, Apply;
    EndSettles(states, steps, slot, i);
    if !ExpiresBetween(steps, slot, i, j) { SettledLasts(states, steps, steps[i].r, slot, i, j); }
  }

  /** A handler that panics leaves its reservation: until the record is discarded
      no handler is started on the slot, and everyone who asks is told to wait. */
  lemma PanicBlocks(states: seq<State>, steps: seq<Step>, slot: Slot, i: nat, j: nat)
    requires IsRun(states, steps) && i < j < |steps| && Undisturbed(states, steps, slot, i)
    requires steps[i].Panics? && OnSlot(states[i], steps[i].r, slot)
    requires (steps[j].ReserveNew? || steps[j].ReserveExisting?) && OnSlot(states[j], steps[j].r, slot)
    requires !ExpiresBetween(steps, slot, i, j)
    ensures steps[j].ReserveExisting?
    ensures In(states[j + 1], steps[j].r, Finished(InProgress))
  {
    hide Undisturbed, ExpiresBetween, OwnersHold;
    var r := steps[i].r;
    EndSettles(states, steps, slot, i);
    SettledLasts(states, steps, r, slot, i, j);
    EndsStay(states, steps, i + 1, j, r);
    RunKeepsInv(states, steps, j);
    assert Faithful(states[j], slot);
  }

  /** Between two successes on a slot its record is discarded. */
  lemma OneSuccess(states: seq<State>, steps: seq<Step>, slot: Slot, i: nat, j: nat)
    requires IsRun(states, steps) && i < j < |steps| && Undisturbed(states, steps, slot, i)
    requires steps[i].Returns? && Replayable(steps[i].outcome) && OnSlot(states[i], steps[i].r, slot)
    requires steps[j].Returns? && Replayable(steps[j].outcome) && OnSlot(states[j], steps[j].r, slot)
    ensures ExpiresBetween(steps, slot, i, j)
  {
    hide Undisturbed, ExpiresBetween, OwnersHold, Apply;
    EndSettles(states, steps, slot, i);
    if !ExpiresBetween(steps, slot, i, j) {
      SettledLasts(states, steps, steps[i].r, slot, i, j);
      StepperHolds(states[j], steps[j].r, slot);
    }
  }

  /** Replays on one slot agree with each other, between two discards of its record. */
  lemma ReplaysAgree(states: seq<State>, steps: seq<Step>, slot: Slot, i: nat, j: nat)
    requires IsRun(states, steps) && i < j < |steps| && Undisturbed(states, steps, slot, i)
    requires steps[i].ReserveExisting? && OnSlot(states[i], steps[i].r, slot)
    requires steps[j].ReserveExisting? && OnSlot(states[j], steps[j].r, slot)
    requires states[i + 1].phases[steps[i].r].reply.Replayed? && states[j + 1].phases[steps[j].r].reply.Replayed?
    requires !ExpiresBetween(steps, slot, i, j)
    ensures states[i + 1].phases[steps[i].r].reply == states[j + 1].phases[steps[j].r].reply
  {
    hide Undisturbed, ExpiresBetween, OwnersHold;
    RunKeepsInv(states, steps, i);
    RunKeepsInv(states, steps, j);
    assert Faithful(states[i], slot);
    var first := states[i].records[slot].requestId;
    RunStartsUnowned(states[0], slot);
    PathKeepsOwners(states, steps, slot, i);
    StepKeepsSettled(states[i], steps[i], first, slot);
    StepKeepsSane(states[i], steps[i]);
    SettledLasts(states, steps, first, slot, i, j);
    EndsStay(states, steps, i, j, first);
    assert Faithful(states[j], slot);
  }

  // --------------------------------------------------------------- expiry

  /** What a discard under an owner can lead to: release and reservation go by
      slot, not by owner, so two handlers run at once, and the release of the
      first takes away the reservation of the second. */
  lemma ExpiryAllowsTwo() returns (states: seq<State>, steps: seq<Step>)
    ensures IsRun(states, steps) && |steps| == 6
    ensures Owns(states[3], 0) && Owns(states[3], 1) && SameSlot(states[3], 0, 1)
    ensures steps[4] == Release(0, true) && steps[5] == ReserveNew(2)
    ensures Owns(states[6], 1) && Owns(states[6], 2) && SameSlot(states[6], 1, 2)
  {
    hide Answer, Kept, IsPath;
    var slot := Slot("scope", "key");
    states, steps := SecondStarts(Request(slot, "fingerprint"));
    states, steps := Extended(states, steps, states[3], Returns(0, NoResponse));
    states, steps := Extended(states, steps, states[4], Release(0, true));
    assert states[5].records == map[] && In(states[5], 2, Waiting);
    states, steps := Extended(states, steps, states[5], ReserveNew(2));
  }

  ghost predicate SameSlot(s: State, q: nat, r: nat) {
    q in s.requests && r in s.requests && s.requests[q].slot == s.requests[r].slot
  }

  lemma SecondStarts(request: Request) returns (states: seq<State>, steps: seq<Step>)
    ensures IsRun(states, steps) && |steps| == 3 && |states| == 4
    ensures states[3] == State(map[0 := request, 1 := request, 2 := request],
                               map[0 := Running, 1 := Running, 2 := Waiting],
                               map[request.slot := Record(1, request.fingerprint, None)])
  {
    hide Answer, Kept, IsPath;
    var requests := map[0 := request, 1 := request, 2 := request];
    var s0 := State(requests, map[0 := Waiting, 1 := Waiting, 2 := Waiting], map[]);
    states, steps := [s0], [];
    StartPath(s0);
    states, steps := Extended(states, steps, s0, ReserveNew(0));
    states, steps := Extended(states, steps, states[1], Expire(request.slot));
    var s2 := State(requests, map[0 := Running, 1 := Waiting, 2 := Waiting], map[]);
    assert states[2] == s2;
    states, steps := Extended(states, steps, s2, ReserveNew(1));
  }
}
