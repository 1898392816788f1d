/** The process map, the VM records and the exit monitors that share them: `register_and_watch`
    in `firecracker.rs` and the lifecycle handlers it races with. */
module Lifecycle {
  import opened Wrappers

  type Id = nat
  type Pid = nat

  datatype VmState = Created | Starting | Running | Stopping | Stopped | Error

  predicate CanTransition(from: VmState, to: VmState) {
    match from
    case Created => to == Starting
    case Starting => to == Running || to == Error
    case Running => to == Stopping || to == Stopped || to == Error
    case Stopping => to == Stopped || to == Error
    case Stopped => to == Starting
    case Error => to == Starting
  }

  predicate Live(state: VmState) {
    state == Starting || state == Running || state == Stopping
  }

  /** The generation counts the claimed starts of the VM. The source keeps no such number:
      it is here so that "a newer generation" can be said. */
  datatype Vm = Vm(state: VmState, generation: nat)

  datatype Entry = Entry(pid: Pid, generation: nat)

  /** What the three locks guard. Each sample carries the generation that reported it. */
  datatype Shared = Shared(processes: map<Id, Entry>, samples: map<Id, seq<nat>>, vms: map<Id, Vm>)

  datatype ClaimError = NotFound | InvalidState(current: VmState)

  // ----- One locked section each

  function WithState(s: Shared, id: Id, to: VmState): Shared
    requires id in s.vms
  {
    s.(vms := s.vms[id := s.vms[id].(state := to)])
  }

  function WithClaim(s: Shared, id: Id, to: VmState): Shared
    requires id in s.vms
  {
    var generation := s.vms[id].generation + if to == Starting then 1 else 0;
    s.(vms := s.vms[id := Vm(to, generation)])
  }

  /** The process is still this one's under its VM's id. */
  predicate Ours(s: Shared, id: Id, pid: Pid) {
    id in s.processes && s.processes[id].pid == pid
  }

  function WithExit(s: Shared, id: Id, clean: bool): Shared {
    if id in s.vms && Live(s.vms[id].state)
    then WithState(s, id, if s.vms[id].state == Stopping || clean then Stopped else Error)
    else s
  }

  function Registered(s: Shared, id: Id, entry: Entry): Shared {
    s.(samples := s.samples - {id}, processes := s.processes[id := entry])
  }

  class AppState {
    var processes: map<Id, Entry>
    var samples: map<Id, seq<nat>>
    var vms: map<Id, Vm>

    constructor (records: map<Id, Vm>)
      ensures View() == Shared(map[], map[], records)
    {
      processes, samples, vms := map[], map[], records;
    }

    function View(): Shared
      reads this
    {
      Shared(processes, samples, vms)
    }

    method ClaimTransition(id: Id, to: VmState) returns (r: Result<VmState, ClaimError>)
      modifies this`vms
      ensures r.Ok? <==> id in old(vms) && CanTransition(old(vms)[id].state, to)
      ensures r.Ok? ==> r.value == old(vms)[id].state && View() == WithClaim(old(View()), id, to)
      ensures r.Err? ==> View() == old(View())
      ensures r.Err? ==> r.error == if id in old(vms) then InvalidState(old(vms)[id].state) else NotFound
    {
      if id !in vms { return Err(NotFound); }
      var previous := vms[id].state;
      if !CanTransition(previous, to) { return Err(InvalidState(previous)); }
      vms := vms[id := Vm(to, vms[id].generation + if to == Starting then 1 else 0)];
      return Ok(previous);
    }

    method TransitionIf(id: Id, from: VmState, to: VmState) returns (moved: bool)
      modifies this`vms
      ensures moved <==> id in old(vms) && old(vms)[id].state == from
      ensures View() == if moved then WithState(old(View()), id, to) else old(View())
    {
      if id !in vms || vms[id].state != from { return false; }
      vms := vms[id := vms[id].(state := to)];
      return true;
    }

    /** The two sections that register a process: old samples go, then the entry is inserted. */
    method Register(id: Id, entry: Entry)
      modifies this`samples, this`processes
      ensures View() == Registered(old(View()), id, entry)
    {
      samples := samples - {id};
      processes := processes[id := entry];
    }

    /** The failure tail of a start: the record ends in error, and the process to kill is the one
        the map holds then. */
    method FailStart(id: Id) returns (kill: Option<Pid>)
      modifies this`vms
      ensures View() == if id in old(vms) then WithState(old(View()), id, Error) else old(View())
      ensures kill == if id in processes then Some(processes[id].pid) else None
    {
      kill := if id in processes then Some(processes[id].pid) else None;
      if id in vms {
        vms := vms[id := vms[id].(state := Error)];
      }
    }

    /** The exit monitor's first lock. */
    method RemoveIfOurs(id: Id, watched: Pid) returns (stillOurs: bool)
      modifies this`processes
      ensures stillOurs <==> Ours(old(View()), id, watched)
      ensures View() == if stillOurs then old(View()).(processes := old(processes) - {id}) else old(View())
    {
      stillOurs := id in processes && processes[id].pid == watched;
      if stillOurs {
        processes := processes - {id};
      }
    }

    /** The exit monitor's third lock. */
    method RecordExit(id: Id, stillOurs: bool, clean: bool) returns (updated: Option<Vm>)
      modifies this`vms
      ensures View() == if stillOurs then WithExit(old(View()), id, clean) else old(View())
      ensures updated.Some? <==> stillOurs && id in old(vms) && Live(old(vms)[id].state)
      ensures updated.Some? ==> updated.value == vms[id]
    {
      if stillOurs && id in vms && Live(vms[id].state) {
        var vm := vms[id].(state := if vms[id].state == Stopping || clean then Stopped else Error);
        vms := vms[id := vm];
        return Some(vm);
      }
      return None;
    }
  }

  // ----- All interleavings of the locked sections

  /** A monitor between its locks; one that has nothing left to change is forgotten. */
  datatype Phase = Waiting | TornDown | Cleared
  datatype Monitor = Monitor(id: Id, generation: nat, phase: Phase)

  /** A start on its way from its claim to the process map. */
  datatype Ticket = Ticket(id: Id, generation: nat)

  /** A handler with something left to do: a start that has registered its process, or a stop
      that has been claimed. Each carries the start it belongs to, and settles when no such
      handler of that start is left. */
  datatype Tail = StartTail(ticket: Ticket) | StopTail(ticket: Ticket)

  datatype System = System(
    shared: Shared, monitors: map<Pid, Monitor>, starts: map<Ticket, bool>, tails: set<Tail>)

  datatype Step =
    | ClaimStart(id: Id)
    | StartFails(ticket: Ticket, to: VmState)
    | RegisterClears(ticket: Ticket)
    | RegisterInserts(ticket: Ticket, pid: Pid)
    | MarkRunning(ticket: Ticket)
    | LateFailure(ticket: Ticket)
    | ClaimStop(id: Id)
    | StopReverts(ticket: Ticket)
    | StopFinishes(ticket: Ticket)
    | Settles(tail: Tail)
    | Reports(pid: Pid)
    | TearsDown(pid: Pid)
    | ClearsSamples(pid: Pid)
    | Records(pid: Pid, clean: bool)

  /** A start claims through the table, a process's PID differs from every watched one, and a
      monitor takes its locks in order. */
  predicate Enabled(s: System, step: Step) {
    match step
    case ClaimStart(id) => id in s.shared.vms && CanTransition(s.shared.vms[id].state, Starting)
    case StartFails(ticket, to) => ticket in s.starts && ticket.id in s.shared.vms && !s.starts[ticket] && !Live(to)
    case RegisterClears(ticket) => ticket in s.starts && !s.starts[ticket]
    case RegisterInserts(ticket, pid) => ticket in s.starts && s.starts[ticket] && pid !in s.monitors
    case MarkRunning(ticket) => StartTail(ticket) in s.tails && ticket.id in s.shared.vms
    case LateFailure(ticket) => StartTail(ticket) in s.tails && ticket.id in s.shared.vms
    case ClaimStop(id) => id in s.shared.vms && CanTransition(s.shared.vms[id].state, Stopping)
    case StopReverts(ticket) => StopTail(ticket) in s.tails && ticket.id in s.shared.vms
    case StopFinishes(ticket) => StopTail(ticket) in s.tails && ticket.id in s.shared.vms
    case Settles(tail) => tail in s.tails
    case Reports(pid) => pid in s.monitors
    case TearsDown(pid) => pid in s.monitors && s.monitors[pid].phase == Waiting
    case ClearsSamples(pid) => pid in s.monitors && s.monitors[pid].phase == TornDown
    case Records(pid, _) => pid in s.monitors && s.monitors[pid].phase == Cleared
  }

  function Moved(s: Shared, id: Id, from: VmState, to: VmState): Shared {
    if id in s.vms && s.vms[id].state == from then WithState(s, id, to) else s
  }

  function Next(s: System, step: Step): System
    requires Enabled(s, step)
  {
    var shared := s.shared;
    match step
    case ClaimStart(id) =>
      s.(shared := WithClaim(shared, id, Starting),
         starts := s.starts[Ticket(id, shared.vms[id].generation + 1) := false])
    case StartFails(ticket, to) =>
      s.(shared := WithState(shared, ticket.id, to), starts := s.starts - {ticket})
    case RegisterClears(ticket) =>
      s.(shared := shared.(samples := shared.samples - {ticket.id}), starts := s.starts[ticket := true])
    case RegisterInserts(ticket, pid) =>
      System(shared.(processes := shared.processes[ticket.id := Entry(pid, ticket.generation)]),
             s.monitors[pid := Monitor(ticket.id, ticket.generation, Waiting)],
             s.starts - {ticket},
             s.tails + {StartTail(ticket)})
    case MarkRunning(ticket) => s.(shared := Moved(shared, ticket.id, Starting, Running))
    case LateFailure(ticket) => s.(shared := WithState(shared, ticket.id, Error))
    case ClaimStop(id) =>
      s.(shared := WithClaim(shared, id, Stopping),
         tails := s.tails + {StopTail(Ticket(id, shared.vms[id].generation))})
    case StopReverts(ticket) => s.(shared := WithState(shared, ticket.id, Running))
    case StopFinishes(ticket) => s.(shared := Moved(shared, ticket.id, Stopping, Stopped))
    case Settles(tail) => s.(tails := s.tails - {tail})
    case Reports(pid) =>
      var monitor := s.monitors[pid];
      var reported := if monitor.id in shared.samples then shared.samples[monitor.id] else [];
      s.(shared := shared.(samples := shared.samples[monitor.id := reported + [monitor.generation]]))
    case TearsDown(pid) =>
      var monitor := s.monitors[pid];
      if Ours(shared, monitor.id, pid)
      then s.(shared := shared.(processes := shared.processes - {monitor.id}),
              monitors := s.monitors[pid := monitor.(phase := TornDown)])
      else s.(monitors := s.monitors - {pid})
    case ClearsSamples(pid) =>
      var monitor := s.monitors[pid];
      s.(shared := shared.(samples := shared.samples - {monitor.id}),
         monitors := s.monitors[pid := monitor.(phase := Cleared)])
    case Records(pid, clean) =>
      s.(shared := WithExit(shared, s.monitors[pid].id, clean), monitors := s.monitors - {pid})
  }

  /** The two registering steps, one after the other, are the registration. */
  lemma RegistersInTwoSections(s: System, t: Ticket, pid: Pid)
    requires Enabled(s, RegisterClears(t)) && pid !in s.monitors
    ensures Enabled(Next(s, RegisterClears(t)), RegisterInserts(t, pid))
    ensures Next(Next(s, RegisterClears(t)), RegisterInserts(t, pid)).shared
         == Registered(s.shared, t.id, Entry(pid, t.generation))
  {
  }

  // ----- What each step does, and to whom

  function IdOf(s: System, step: Step): Id
    requires Enabled(s, step)
  {
    match step
    case ClaimStart(id) => id
    case ClaimStop(id) => id
    case StartFails(t, _) => t.id
    case RegisterClears(t) => t.id
    case RegisterInserts(t, _) => t.id
    case MarkRunning(t) => t.id
    case LateFailure(t) => t.id
    case StopReverts(t) => t.id
    case StopFinishes(t) => t.id
    case Settles(tail) => tail.ticket.id
    case Reports(pid) => s.monitors[pid].id
    case TearsDown(pid) => s.monitors[pid].id
    case ClearsSamples(pid) => s.monitors[pid].id
    case Records(pid, _) => s.monitors[pid].id
  }

  ghost predicate SameVm(s: Shared, s': Shared, id: Id) {
    && (id in s.vms <==> id in s'.vms) && (id in s.vms ==> s'.vms[id] == s.vms[id])
    && (id in s.processes <==> id in s'.processes) && (id in s.processes ==> s'.processes[id] == s.processes[id])
    && (id in s.samples <==> id in s'.samples) && (id in s.samples ==> s'.samples[id] == s.samples[id])
  }

  /** A step touches one VM's record, map entry and samples only. */
  lemma OtherVmsUntouched(s: System, step: Step, other: Id)
    requires Enabled(s, step) && other != IdOf(s, step)
    ensures SameVm(s.shared, Next(s, step).shared, other)
  {
  }

  /** The states the handlers write. */
  lemma HandlerWrites(s: System, step: Step)
    requires Enabled(s, step) && IdOf(s, step) in s.shared.vms
    ensures
      var id := IdOf(s, step);
      var before, after := s.shared.vms[id], Next(s, step).shared.vms[id];
      match step
      case ClaimStart(_) => after == Vm(Starting, before.generation + 1)
      case ClaimStop(_) => after == Vm(Stopping, before.generation)
      case StartFails(_, to) => after == Vm(to, before.generation)
      case LateFailure(_) => after == Vm(Error, before.generation)
      case StopReverts(_) => after == Vm(Running, before.generation)
      case MarkRunning(_) => after == Vm(if before.state == Starting then Running else before.state, before.generation)
      case StopFinishes(_) => after == Vm(if before.state == Stopping then Stopped else before.state, before.generation)
      case Records(_, _) => true
      case _ => after == before
  {
  }

  /** What is left to do after a claim and a registration. */
  lemma HandlersQueued(s: System, step: Step)
    requires Enabled(s, step)
    ensures
      var s' := Next(s, step);
      match step
      case ClaimStart(id) => s'.starts == s.starts[Ticket(id, s.shared.vms[id].generation + 1) := false]
      case StartFails(t, _) => s'.starts == s.starts - {t}
      case RegisterInserts(t, pid) =>
        && s'.starts == s.starts - {t} && s'.tails == s.tails + {StartTail(t)}
        && s'.monitors == s.monitors[pid := Monitor(t.id, t.generation, Waiting)]
      case ClaimStop(id) => s'.tails == s.tails + {StopTail(Ticket(id, s.shared.vms[id].generation))}
      case _ => true
  {
  }

  /** A watched process's report is added to its VM's samples. */
  lemma ReportIsKept(s: System, pid: Pid)
    requires Enabled(s, Reports(pid))
    ensures
      var id, samples := s.monitors[pid].id, Next(s, Reports(pid)).shared.samples;
      && id in samples
      && samples[id] == (if id in s.shared.samples then s.shared.samples[id] else []) + [s.monitors[pid].generation]
  {
  }

  /** A monitor that still owns its VM does all three things an exit calls for: the map entry and
      the samples are gone, and a live record is stopped, or in error after a crash that nobody
      asked for. Nothing else changes, and the monitor is done. */
  lemma ExitIsRecorded(s: System, pid: Pid, clean: bool)
    requires Enabled(s, TearsDown(pid)) && Ours(s.shared, s.monitors[pid].id, pid)
    ensures
      var id, torn := s.monitors[pid].id, Next(s, TearsDown(pid));
      && Enabled(torn, ClearsSamples(pid))
      && var cleared := Next(torn, ClearsSamples(pid));
      && Enabled(cleared, Records(pid, clean))
      && var s' := Next(cleared, Records(pid, clean));
      && s'.monitors == s.monitors - {pid} && s'.starts == s.starts && s'.tails == s.tails
      && s'.shared.processes == s.shared.processes - {id}
      && s'.shared.samples == s.shared.samples - {id}
      && (id in s.shared.vms && s.shared.vms[id].state in {Starting, Running, Stopping} ==>
            s'.shared.vms ==
            s.shared.vms[id := s.shared.vms[id].(state :=
                           if s.shared.vms[id].state == Stopping || clean then Stopped else Error)])
      && (!(id in s.shared.vms && s.shared.vms[id].state in {Starting, Running, Stopping}) ==>
            s'.shared.vms == s.shared.vms)
  {
  }

  /** One that no longer owns it changes nothing shared. */
  lemma StrangerChangesNothing(s: System, pid: Pid)
    requires Enabled(s, TearsDown(pid)) && !Ours(s.shared, s.monitors[pid].id, pid)
    ensures Next(s, TearsDown(pid)) == s.(monitors := s.monitors - {pid})
  {
  }

  /** The second lock leaves the VM without samples, and every other VM with its own. */
  lemma SamplesCleared(s: System, pid: Pid)
    requires Enabled(s, ClearsSamples(pid))
    ensures Next(s, ClearsSamples(pid)).shared == s.shared.(samples := s.shared.samples - {s.monitors[pid].id})
  {
  }

  ghost predicate Possible(s: System, steps: seq<Step>)
    decreases |steps|
  {
    steps == [] || (Enabled(s, steps[0]) && Possible(Next(s, steps[0]), steps[1..]))
  }

  predicate ReportsOf(s: System, step: Step, id: Id)
    requires Enabled(s, step)
  {
    step.Reports? && s.monitors[step.pid].id == id
  }

  /** The VM has no samples in any state up to its next report. */
  ghost predicate NoSamplesUntilReport(s: System, steps: seq<Step>, id: Id)
    requires Possible(s, steps)
    decreases |steps|
  {
    && id !in s.shared.samples
    && (steps == [] || ReportsOf(s, steps[0], id) || NoSamplesUntilReport(Next(s, steps[0]), steps[1..], id))
  }

  /** Once cleared, a VM has no samples until a process of it reports again, in every run. */
  lemma {:induction false} ClearedUntilReport(s: System, steps: seq<Step>, id: Id)
    requires id !in s.shared.samples && Possible(s, steps)
    ensures NoSamplesUntilReport(s, steps, id)
    decreases |steps|
  {
    if steps != [] && !ReportsOf(s, steps[0], id) {
      ClearedUntilReport(Next(s, steps[0]), steps[1..], id);
    }
  }

  // ----- What is always open

  /** A VM can be started exactly when it is not live, and stopped exactly when it is running. */
  lemma ClaimsExactly(s: System, id: Id)
    requires id in s.shared.vms
    ensures Enabled(s, ClaimStart(id)) <==> s.shared.vms[id].state in {Created, Stopped, Error}
    ensures Enabled(s, ClaimStop(id)) <==> s.shared.vms[id].state == Running
  {
  }

  /** A monitor always has its next lock to take, and a handler with something left to do can
      do it or settle. */
  lemma NobodyStuck(s: System)
    ensures forall pid <- s.monitors ::
              Enabled(s, match s.monitors[pid].phase
                         case Waiting => TearsDown(pid)
                         case TornDown => ClearsSamples(pid)
                         case Cleared => Records(pid, true))
    ensures forall t <- s.starts, pid: Pid :: pid !in s.monitors ==>
              Enabled(s, if s.starts[t] then RegisterInserts(t, pid) else RegisterClears(t))
    ensures forall tail <- s.tails :: Enabled(s, Settles(tail))
  {
  }

  /** A start with nothing in its way, from any state. */
  lemma StartRound(s: System, id: Id, pid: Pid)
    requires id in s.shared.vms && !Live(s.shared.vms[id].state) && pid !in s.monitors
    ensures
      var t := Ticket(id, s.shared.vms[id].generation + 1);
      && Enabled(s, ClaimStart(id))
      && var claimed := Next(s, ClaimStart(id));
      && Enabled(claimed, RegisterClears(t))
      && var cleared := Next(claimed, RegisterClears(t));
      && Enabled(cleared, RegisterInserts(t, pid))
      && var registered := Next(cleared, RegisterInserts(t, pid));
      && Enabled(registered, MarkRunning(t))
      && var running := Next(registered, MarkRunning(t));
      && running.shared == Shared(s.shared.processes[id := Entry(pid, t.generation)], s.shared.samples - {id},
                                  s.shared.vms[id := Vm(Running, t.generation)])
      && running.monitors == s.monitors[pid := Monitor(id, t.generation, Waiting)]
  {
  }

  /** And a stop whose process exits. */
  lemma StopRound(s: System, id: Id, pid: Pid, clean: bool)
    requires id in s.shared.vms && s.shared.vms[id].state == Running
    requires pid in s.monitors && s.monitors[pid].phase == Waiting && s.monitors[pid].id == id
    requires Ours(s.shared, id, pid)
    ensures
      && Enabled(s, ClaimStop(id))
      && var stopping := Next(s, ClaimStop(id));
      && Enabled(stopping, TearsDown(pid))
      && var torn := Next(stopping, TearsDown(pid));
      && Enabled(torn, ClearsSamples(pid))
      && var cleared := Next(torn, ClearsSamples(pid));
      && Enabled(cleared, Records(pid, clean))
      && var stopped := Next(cleared, Records(pid, clean));
      && stopped.shared == Shared(s.shared.processes - {id}, s.shared.samples - {id},
                                  s.shared.vms[id := Vm(Stopped, s.shared.vms[id].generation)])
      && stopped.monitors == s.monitors - {pid}
  {
    ExitIsRecorded(Next(s, ClaimStop(id)), pid, clean);
  }

  // ----- Disturbing a newer generation

  /** The step is a monitor's, and it changes something a later start put there. */
  predicate DisturbsEntry(s: System, step: Step)
    requires Enabled(s, step)
  {
    && step.TearsDown?
    && Ours(s.shared, s.monitors[step.pid].id, step.pid)
    && s.shared.processes[s.monitors[step.pid].id].generation != s.monitors[step.pid].generation
  }

  predicate DisturbsSamples(s: System, step: Step)
    requires Enabled(s, step)
  {
    && step.ClearsSamples?
    && var monitor := s.monitors[step.pid];
    && monitor.id in s.shared.samples
    && exists k :: 0 <= k < |s.shared.samples[monitor.id]| && s.shared.samples[monitor.id][k] > monitor.generation
  }

  predicate DisturbsRecord(s: System, step: Step)
    requires Enabled(s, step)
  {
    && step.Records?
    && var id := s.monitors[step.pid].id;
    && id in s.shared.vms
    && s.shared.vms[id].generation > s.monitors[step.pid].generation
    && Next(s, step).shared.vms[id] != s.shared.vms[id]
  }

  predicate Disturbs(s: System, step: Step)
    requires Enabled(s, step)
  {
    DisturbsEntry(s, step) || DisturbsSamples(s, step) || DisturbsRecord(s, step)
  }

  // ----- What every interleaving keeps

  /** Every map entry is watched by the monitor registered with it. */
  ghost predicate EntriesWatched(s: System) {
    forall id <- s.shared.processes ::
      && var e := s.shared.processes[id];
      && e.pid in s.monitors
      && s.monitors[e.pid] == Monitor(id, e.generation, Waiting)
  }

  /** Nothing watched or under way is newer than the record's own generation. */
  ghost predicate NothingNewer(s: System) {
    && (forall pid <- s.monitors :: NotNewer(s.shared, s.monitors[pid].id, s.monitors[pid].generation))
    && (forall t <- s.starts :: NotNewer(s.shared, t.id, t.generation))
  }

  predicate NotNewer(s: Shared, id: Id, generation: nat) {
    id in s.vms && generation <= s.vms[id].generation
  }

  ghost predicate Sound(s: System) {
    EntriesWatched(s) && NothingNewer(s)
  }

  lemma EntriesWatchedStay(s: System, step: Step)
    requires EntriesWatched(s) && Enabled(s, step)
    ensures EntriesWatched(Next(s, step))
  {
  }

  lemma NothingNewerStays(s: System, step: Step)
    requires NothingNewer(s) && Enabled(s, step)
    ensures NothingNewer(Next(s, step))
  {
  }

  /** Whatever the handlers do, a monitor never removes a newer generation's map entry. */
  lemma EntryNeverDisturbed(s: System, step: Step)
    requires Sound(s) && Enabled(s, step)
    ensures Sound(Next(s, step)) && !DisturbsEntry(s, step)
  {
    EntriesWatchedStay(s, step);
    NothingNewerStays(s, step);
  }

  ghost predicate EntriesUndisturbed(s: System, steps: seq<Step>)
    requires Possible(s, steps)
    decreases |steps|
  {
    steps == [] || (!DisturbsEntry(s, steps[0]) && EntriesUndisturbed(Next(s, steps[0]), steps[1..]))
  }

  lemma {:induction false} EntriesNeverDisturbed(s: System, steps: seq<Step>)
    requires Sound(s) && Possible(s, steps)
    ensures EntriesUndisturbed(s, steps)
    decreases |steps|
  {
    if steps != [] {
      EntryNeverDisturbed(s, steps[0]);
      EntriesNeverDisturbed(Next(s, steps[0]), steps[1..]);
    }
  }

  // ----- Runs in which only the monitor ends a watched VM

  predicate Quiet(s: System, id: Id) {
    && (forall pid <- s.monitors :: s.monitors[pid].id != id)
    && (forall t <- s.starts :: t.id != id)
  }

  /** The two moves out of a live state that do not wait for the monitor. */
  predicate Forces(s: System, step: Step) {
    || step.LateFailure?
    || (step.StopFinishes? && step.ticket.id in s.shared.vms && s.shared.vms[step.ticket.id].state == Stopping)
  }

  predicate Disciplined(s: System, step: Step) {
    Enabled(s, step) && (Forces(s, step) ==> Quiet(s, step.ticket.id))
  }

  ghost predicate Legal(s: System, steps: seq<Step>)
    decreases |steps|
  {
    steps == [] || (Disciplined(s, steps[0]) && Legal(Next(s, steps[0]), steps[1..]))
  }

  ghost function After(s: System, steps: seq<Step>): System
    requires Legal(s, steps)
    decreases |steps|
  {
    if steps == [] then s else After(Next(s, steps[0]), steps[1..])
  }

  ghost predicate Undisturbed(s: System, steps: seq<Step>)
    requires Legal(s, steps)
    decreases |steps|
  {
    steps == [] || (!Disturbs(s, steps[0]) && Undisturbed(Next(s, steps[0]), steps[1..]))
  }

  predicate Current(s: System, id: Id, generation: nat) {
    id in s.shared.vms && Live(s.shared.vms[id].state) && s.shared.vms[id].generation == generation
  }

  /** A VM that is watched, or on its way to being, is live and of the watched generation. */
  ghost predicate AllCurrent(s: System) {
    && (forall pid <- s.monitors :: Current(s, s.monitors[pid].id, s.monitors[pid].generation))
    && (forall t <- s.starts :: Current(s, t.id, t.generation))
  }

  /** It has no second monitor or start, and its process is in the map until torn down. */
  ghost predicate OneEach(s: System) {
    && (forall p <- s.monitors :: s.monitors[p].phase == Waiting ==> Ours(s.shared, s.monitors[p].id, p))
    && (forall p <- s.monitors, q <- s.monitors :: s.monitors[p].id == s.monitors[q].id ==> p == q)
    && (forall p <- s.monitors, t <- s.starts :: s.monitors[p].id != t.id)
  }

  ghost predicate SamplesNotNewer(s: Shared) {
    forall id <- s.samples :: forall k :: 0 <= k < |s.samples[id]| ==> NotNewer(s, id, s.samples[id][k])
  }

  ghost predicate Orderly(s: System) {
    Sound(s) && AllCurrent(s) && OneEach(s) && SamplesNotNewer(s.shared)
  }

  function WithVm(s: System, id: Id, vm: Vm): System {
    s.(shared := s.shared.(vms := s.shared.vms[id := vm]))
  }

  /** A record may change when nothing depends on it, or when it stays live and of its generation. */
  lemma CurrentAfterRecord(s: System, id: Id, vm: Vm)
    requires AllCurrent(s) && id in s.shared.vms
    requires Quiet(s, id) || (Live(vm.state) && vm.generation == s.shared.vms[id].generation)
    ensures AllCurrent(WithVm(s, id, vm))
  {
  }

  lemma InactiveIsQuiet(s: System, id: Id)
    requires AllCurrent(s) && id in s.shared.vms && !Live(s.shared.vms[id].state)
    ensures Quiet(s, id)
  {
  }

  lemma QuietWithoutStart(s: System, t: Ticket)
    requires AllCurrent(s) && OneEach(s) && t in s.starts
    ensures Quiet(s.(starts := s.starts - {t}), t.id)
  {
    forall u <- s.starts - {t} ensures u.id != t.id {
      assert Current(s, u.id, u.generation) && Current(s, t.id, t.generation);
    }
  }

  lemma QuietWithoutMonitor(s: System, pid: Pid)
    requires OneEach(s) && pid in s.monitors
    ensures Quiet(s.(monitors := s.monitors - {pid}), s.monitors[pid].id)
  {
  }

  lemma CurrentAfterClaim(s: System, id: Id)
    requires AllCurrent(s) && Disciplined(s, ClaimStart(id))
    ensures AllCurrent(Next(s, ClaimStart(id)))
  {
    InactiveIsQuiet(s, id);
    CurrentAfterRecord(s, id, Vm(Starting, s.shared.vms[id].generation + 1));
  }

  lemma CurrentAfterFailure(s: System, step: Step)
    requires AllCurrent(s) && OneEach(s) && step.StartFails? && Disciplined(s, step)
    ensures AllCurrent(Next(s, step))
  {
    var ticket := step.ticket;
    QuietWithoutStart(s, ticket);
    CurrentAfterRecord(
      s.(starts := s.starts - {ticket}), ticket.id, s.shared.vms[ticket.id].(state := step.to));
  }

  lemma CurrentAfterExit(s: System, step: Step)
    requires AllCurrent(s) && OneEach(s) && step.Records? && Disciplined(s, step)
    ensures AllCurrent(Next(s, step))
  {
    var pid, id := step.pid, s.monitors[step.pid].id;
    assert Current(s, id, s.monitors[pid].generation);
    QuietWithoutMonitor(s, pid);
    CurrentAfterRecord(s.(monitors := s.monitors - {pid}), id, Next(s, step).shared.vms[id]);
  }

  lemma CurrentStays(s: System, step: Step)
    requires AllCurrent(s) && OneEach(s) && Disciplined(s, step)
    ensures AllCurrent(Next(s, step))
  {
    var vms := s.shared.vms;
    match step
    case ClaimStart(id) =>
      CurrentAfterClaim(s, id);
    case StartFails(_, _) => CurrentAfterFailure(s, step);
    case RegisterClears(_) =>
    case RegisterInserts(ticket, _) => assert Current(s, ticket.id, ticket.generation);
    case MarkRunning(t) => CurrentAfterRecord(s, t.id, vms[t.id].(state := Running));
    case Settles(_) =>
    case LateFailure(t) => CurrentAfterRecord(s, t.id, vms[t.id].(state := Error));
    case ClaimStop(id) => CurrentAfterRecord(s, id, vms[id].(state := Stopping));
    case StopReverts(t) => CurrentAfterRecord(s, t.id, vms[t.id].(state := Running));
    case StopFinishes(t) =>
      if Forces(s, step) { CurrentAfterRecord(s, t.id, vms[t.id].(state := Stopped)); }
    case Reports(_) =>
    case TearsDown(_) =>
    case ClearsSamples(_) =>
    case Records(_, _) => CurrentAfterExit(s, step);
  }

  /** Records do not matter to it, nor does a monitor that moves on or goes. */
  lemma OneEachAfterMonitors(s: System, monitors: map<Pid, Monitor>, processes: map<Id, Entry>)
    requires OneEach(s) && monitors.Keys <= s.monitors.Keys
    requires forall p <- monitors :: monitors[p].id == s.monitors[p].id
    requires forall p <- monitors ::
               monitors[p].phase == Waiting ==>
                 && s.monitors[p].phase == Waiting
                 && monitors[p].id in processes && processes[monitors[p].id] == s.shared.processes[monitors[p].id]
    ensures OneEach(s.(monitors := monitors, shared := s.shared.(processes := processes)))
  {
  }

  lemma OneEachAfterClaim(s: System, id: Id)
    requires AllCurrent(s) && OneEach(s) && Disciplined(s, ClaimStart(id))
    ensures OneEach(Next(s, ClaimStart(id)))
  {
    InactiveIsQuiet(s, id);
  }

  lemma OneEachAfterInsert(s: System, ticket: Ticket, pid: Pid)
    requires AllCurrent(s) && OneEach(s) && Disciplined(s, RegisterInserts(ticket, pid))
    ensures OneEach(Next(s, RegisterInserts(ticket, pid)))
  {
    QuietWithoutStart(s, ticket);
  }

  lemma OneEachAfterExit(s: System, step: Step)
    requires Sound(s) && OneEach(s) && Disciplined(s, step)
    requires step.TearsDown? || step.ClearsSamples? || step.Records?
    ensures OneEach(Next(s, step))
  {
    match step
    case TearsDown(pid) => OneEachAfterTearDown(s, pid);
    case ClearsSamples(pid) =>
      OneEachAfterMonitors(s, Next(s, step).monitors, s.shared.processes);
    case Records(pid, _) =>
      OneEachAfterMonitors(s, s.monitors - {pid}, s.shared.processes);
  }

  lemma OneEachAfterTearDown(s: System, pid: Pid)
    requires Sound(s) && OneEach(s) && Enabled(s, TearsDown(pid))
    ensures OneEach(Next(s, TearsDown(pid)))
  {
    var s' := Next(s, TearsDown(pid));
    forall p <- s'.monitors | s'.monitors[p].phase == Waiting
      ensures p in s.monitors && s'.monitors[p] == s.monitors[p] && s'.monitors[p].id in s'.shared.processes
    {
      assert Ours(s.shared, s.monitors[p].id, p);
    }
    OneEachAfterMonitors(s, s'.monitors, s'.shared.processes);
  }

  lemma OneEachStays(s: System, step: Step)
    requires Sound(s) && AllCurrent(s) && OneEach(s) && Disciplined(s, step)
    ensures OneEach(Next(s, step))
  {
    match step
    case ClaimStart(id) => OneEachAfterClaim(s, id);
    case RegisterInserts(ticket, pid) => OneEachAfterInsert(s, ticket, pid);
    case TearsDown(_) => OneEachAfterExit(s, step);
    case ClearsSamples(_) => OneEachAfterExit(s, step);
    case Records(_, _) => OneEachAfterExit(s, step);
    case StartFails(_, _) =>
    case RegisterClears(_) =>
    case MarkRunning(_) =>
    case Settles(_) =>
    case ClaimStop(_) =>
    case StopReverts(_) =>
    case StopFinishes(_) =>
    case LateFailure(_) =>
    case Reports(_) =>
  }

  lemma SamplesStay(s: System, step: Step)
    requires Orderly(s) && Disciplined(s, step)
    ensures SamplesNotNewer(Next(s, step).shared)
  {
  }

  lemma OrderlyStays(s: System, step: Step)
    requires Orderly(s) && Disciplined(s, step)
    ensures Orderly(Next(s, step)) && !Disturbs(s, step)
  {
    EntryNeverDisturbed(s, step);
    CurrentStays(s, step);
    OneEachStays(s, step);
    SamplesStay(s, step);
  }

  predicate Idle(s: System) {
    && s.monitors == map[] && s.starts == map[] && s.tails == {}
    && s.shared.processes == map[] && s.shared.samples == map[]
  }

  /** While only the monitor takes a watched VM out of its live states, no monitor, however
      late between its three locks, ever disturbs a newer generation. */
  lemma {:induction false} MonitorsNeverDisturb(s: System, steps: seq<Step>)
    requires Orderly(s) && Legal(s, steps)
    ensures Undisturbed(s, steps) && Orderly(After(s, steps))
    decreases |steps|
  {
    if steps != [] {
      OrderlyStays(s, steps[0]);
      MonitorsNeverDisturb(Next(s, steps[0]), steps[1..]);
    }
  }

  lemma IdleNeverDisturbed(s: System, steps: seq<Step>)
    requires Idle(s) && Legal(s, steps)
    ensures Undisturbed(s, steps)
  {
    MonitorsNeverDisturb(s, steps);
  }

  // ----- Without that discipline the race is real

  ghost predicate Safe(s: System) {
    forall steps: seq<Step> | Legal(s, steps) :: Undisturbed(s, steps)
  }

  lemma UnsafeBefore(s: System, step: Step)
    requires Disciplined(s, step) && !Safe(Next(s, step))
    ensures !Safe(s)
  {
    var steps :| Legal(Next(s, step), steps) && !Undisturbed(Next(s, step), steps);
    assert ([step] + steps)[1..] == steps;
    assert Legal(s, [step] + steps) && !Undisturbed(s, [step] + steps);
  }

  lemma DisturbedAtOnce(s: System, step: Step)
    requires Disciplined(s, step) && Disturbs(s, step)
    ensures !Safe(s)
  {
    assert [step][0] == step;
    assert Legal(s, [step]);
    assert !Undisturbed(s, [step]);
  }

  /** A monitor of an older generation that owned, or still owns, the map entry of a starting VM. */
  ghost predicate Outlived(s: System, pid: Pid) {
    && pid in s.monitors
    && var monitor := s.monitors[pid];
    && monitor.id in s.shared.vms
    && s.shared.vms[monitor.id].state == Starting
    && s.shared.vms[monitor.id].generation > monitor.generation
    && (monitor.phase == Waiting ==> Ours(s.shared, monitor.id, pid))
  }

  lemma OutlivedUnsafe(s: System, pid: Pid)
    requires Outlived(s, pid)
    ensures !Safe(s)
    decreases match s.monitors[pid].phase case Waiting => 2 case TornDown => 1 case Cleared => 0
  {
    match s.monitors[pid].phase
    case Waiting =>
      OutlivedUnsafe(Next(s, TearsDown(pid)), pid);
      UnsafeBefore(s, TearsDown(pid));
    case TornDown =>
      OutlivedUnsafe(Next(s, ClearsSamples(pid)), pid);
      UnsafeBefore(s, ClearsSamples(pid));
    case Cleared =>
      DisturbedAtOnce(s, Records(pid, false));
  }

  lemma FreshPid(pids: set<Pid>) returns (pid: Pid)
    ensures pid !in pids && forall p <- pids :: p < pid
    decreases |pids|
  {
    if pids == {} {
      pid := 0;
    } else {
      var p :| p in pids;
      var above := FreshPid(pids - {p});
      pid := if p < above then above else p + 1;
      assert forall q <- pids :: q == p || q in pids - {p};
    }
  }

  /** A start of an older generation that has yet to register its process. */
  lemma OutlivedStartUnsafe(s: System, t: Ticket)
    requires t in s.starts && t.id in s.shared.vms
    requires s.shared.vms[t.id].state == Starting && s.shared.vms[t.id].generation > t.generation
    ensures !Safe(s)
    decreases if s.starts[t] then 0 else 1
  {
    if s.starts[t] {
      var pid := FreshPid(s.monitors.Keys);
      OutlivedUnsafe(Next(s, RegisterInserts(t, pid)), pid);
      UnsafeBefore(s, RegisterInserts(t, pid));
    } else {
      OutlivedStartUnsafe(Next(s, RegisterClears(t)), t);
      UnsafeBefore(s, RegisterClears(t));
    }
  }

  /** Taking a VM out of its live states without its monitor is safe exactly when there is no
      monitor left to wait for and no start under way: otherwise the next start can be hit. */
  lemma ForcedMoveSafeExactly(s: System, step: Step)
    requires Orderly(s) && Enabled(s, step) && Forces(s, step)
    ensures Safe(Next(s, step)) <==> Quiet(s, step.ticket.id)
  {
    var id, s' := step.ticket.id, Next(s, step);
    if Quiet(s, id) {
      OrderlyStays(s, step);
      forall steps | Legal(s', steps) ensures Undisturbed(s', steps) {
        MonitorsNeverDisturb(s', steps);
      }
    } else {
      var claim := ClaimStart(id);
      var claimed := Next(s', claim);
      if pid :| pid in s.monitors && s.monitors[pid].id == id {
        OutlivedUnsafe(claimed, pid);
      } else {
        var t :| t in s.starts && t.id == id;
        OutlivedStartUnsafe(claimed, t);
      }
      UnsafeBefore(s', claim);
    }
  }

  // ----- The moves themselves

  /** From this state the step leaves the lifecycle table: a process exits cleanly while still
      starting, or one of the writes that do not look at the state they replace finds a state
      the table does not let go there. */
  predicate LeavesTable(step: Step, from: VmState) {
    || (step.Records? && step.clean && from == Starting)
    || (step.StopReverts? && from != Starting)
    || (step.LateFailure? && !Live(from))
    || (step.StartFails? && !(Live(from) && (step.to == Error || (step.to == Stopped && from != Starting))))
  }

  /** For every step of every handler and monitor: a record's change is in the lifecycle table
      exactly when the step does not leave it. */
  lemma MovesInTableExactly(s: System, step: Step, id: Id)
    requires Enabled(s, step) && id in s.shared.vms
    ensures
      var from, to := s.shared.vms[id].state, Next(s, step).shared.vms[id].state;
      from != to ==> (CanTransition(from, to) <==> !LeavesTable(step, from))
  {
  }

  /** No step but a claimed start begins a generation, and it begins exactly one. */
  lemma GenerationsCountStarts(s: System, step: Step, id: Id)
    requires Enabled(s, step) && id in s.shared.vms
    ensures id in Next(s, step).shared.vms
    ensures Next(s, step).shared.vms[id].generation ==
            s.shared.vms[id].generation + if step == ClaimStart(id) then 1 else 0
  {
  }

  // ----- Stopping ends stopped

  predicate IsRevert(step: Step, id: Id) {
    step.StopReverts? && step.ticket.id == id
  }

  predicate NoRevert(steps: seq<Step>, id: Id) {
    forall step :: step in steps ==> !IsRevert(step, id)
  }

  /** While a watched VM's monitor is not done, a stopping VM stays of its generation and
      stopping, or running where a failed stop wrote that back. The exit then leaves it stopped
      if it was stopping or the exit was clean, and in error otherwise. */
  lemma {:induction false} StoppingEndsStopped(s: System, steps: seq<Step>, pid: Pid)
    requires Orderly(s) && Legal(s, steps)
    requires pid in s.monitors && s.shared.vms[s.monitors[pid].id].state in {Stopping, Running}
    requires forall clean :: Records(pid, clean) !in steps
    ensures
      var id, s' := s.monitors[pid].id, After(s, steps);
      && Orderly(s')
      && pid in s'.monitors && s'.monitors[pid].id == id && id in s'.shared.vms
      && s'.shared.vms[id].generation == s.shared.vms[id].generation
      && s'.shared.vms[id].state in {Stopping, Running}
      && (s.shared.vms[id].state == Stopping && NoRevert(steps, id) ==> s'.shared.vms[id].state == Stopping)
      && forall clean :: Enabled(s', Records(pid, clean)) ==>
           Next(s', Records(pid, clean)).shared.vms[id] ==
           Vm(if s'.shared.vms[id].state == Stopping || clean then Stopped else Error, s.shared.vms[id].generation)
    decreases |steps|
  {
    if steps != [] {
      OrderlyStays(s, steps[0]);
      StoppingStep(s, steps[0], pid);
      StoppingEndsStopped(Next(s, steps[0]), steps[1..], pid);
    }
  }

  lemma StoppingStep(s: System, step: Step, pid: Pid)
    requires Orderly(s) && Disciplined(s, step)
    requires pid in s.monitors && s.shared.vms[s.monitors[pid].id].state in {Stopping, Running}
    requires !(step.Records? && step.pid == pid)
    ensures
      var id, s' := s.monitors[pid].id, Next(s, step);
      && pid in s'.monitors && s'.monitors[pid].id == id && id in s'.shared.vms
      && s'.shared.vms[id].generation == s.shared.vms[id].generation
      && s'.shared.vms[id].state in {Stopping, Running}
      && (s.shared.vms[id].state == Stopping && !IsRevert(step, id) ==> s'.shared.vms[id].state == Stopping)
  {
    GenerationsCountStarts(s, step, s.monitors[pid].id);
  }

  lemma StoppedStep(s: System, step: Step, id: Id)
    requires AllCurrent(s) && Enabled(s, step) && id in s.shared.vms && s.shared.vms[id].state == Stopped
    requires step != ClaimStart(id) && !IsRevert(step, id) && !(step.LateFailure? && step.ticket.id == id)
    ensures id in Next(s, step).shared.vms && Next(s, step).shared.vms[id] == s.shared.vms[id]
  {
    InactiveIsQuiet(s, id);
  }

  /** Afterwards it stays stopped until one of three things happens: a start is claimed, or one
      of the two writes that do not look at the state finds it. */
  lemma {:induction false} StoppedStays(s: System, steps: seq<Step>, id: Id)
    requires Orderly(s) && Legal(s, steps)
    requires id in s.shared.vms && s.shared.vms[id].state == Stopped
    requires ClaimStart(id) !in steps && NoRevert(steps, id)
    requires forall step :: step in steps ==> !(step.LateFailure? && step.ticket.id == id)
    ensures id in After(s, steps).shared.vms && After(s, steps).shared.vms[id] == s.shared.vms[id]
    decreases |steps|
  {
    if steps != [] {
      assert steps[0] in steps && forall step :: step in steps[1..] ==> step in steps;
      StoppedStep(s, steps[0], id);
      OrderlyStays(s, steps[0]);
      StoppedStays(Next(s, steps[0]), steps[1..], id);
    }
  }

  // ----- When a failed stop may write Running back

  /** Every live VM is watched or on its way to being. */
  ghost predicate AllWatched(s: System) {
    forall id <- s.shared.vms :: Live(s.shared.vms[id].state) ==> !Quiet(s, id)
  }

  ghost predicate Watched(s: System, id: Id) {
    exists pid :: pid in s.monitors && s.monitors[pid].id == id
  }

  /** Every running or stopping VM has a process that is watched. */
  ghost predicate RunningWatched(s: System) {
    forall id <- s.shared.vms :: s.shared.vms[id].state in {Running, Stopping} ==> Watched(s, id)
  }

  /** The write back is safe exactly while the VM is watched: otherwise it makes a running VM
      that no process stands behind, be it after the exit or during the next start. */
  lemma RevertSafeExactly(s: System, t: Ticket)
    requires Orderly(s) && RunningWatched(s) && Enabled(s, StopReverts(t))
    ensures RunningWatched(Next(s, StopReverts(t))) <==> Watched(s, t.id)
  {
    var s' := Next(s, StopReverts(t));
    forall id <- s.shared.vms ensures Watched(s', id) <==> Watched(s, id) {
    }
  }

  /** By the record and the starts under way: watched is live and past registration. */
  lemma WatchedExactly(s: System, id: Id)
    requires Orderly(s) && AllWatched(s) && id in s.shared.vms
    ensures Watched(s, id) <==> Live(s.shared.vms[id].state) && forall t <- s.starts :: t.id != id
  {
    if pid :| pid in s.monitors && s.monitors[pid].id == id {
      assert Current(s, id, s.monitors[pid].generation);
    }
  }

  /** While the record is only live, the write back at least leaves a process or a start. */
  lemma RevertLeavesBusyExactly(s: System, t: Ticket)
    requires Orderly(s) && AllWatched(s) && Enabled(s, StopReverts(t))
    ensures AllWatched(Next(s, StopReverts(t))) <==> Live(s.shared.vms[t.id].state)
  {
    var s' := Next(s, StopReverts(t));
    forall other <- s.shared.vms ensures Quiet(s', other) <==> Quiet(s, other) {
    }
    if !Live(s.shared.vms[t.id].state) {
      InactiveIsQuiet(s, t.id);
    }
  }

  lemma StillBusy(s: System, s': System, id: Id)
    requires !Quiet(s, id)
    requires forall p <- s.monitors :: s.monitors[p].id == id ==> p in s'.monitors && s'.monitors[p].id == id
    requires forall t <- s.starts :: t.id == id ==> t in s'.starts
    ensures !Quiet(s', id)
  {
  }

  lemma WatchedStays(s: System, step: Step)
    requires Orderly(s) && AllWatched(s) && Disciplined(s, step)
    requires step.StopReverts? ==> Live(s.shared.vms[step.ticket.id].state)
    ensures AllWatched(Next(s, step))
  {
    var s' := Next(s, step);
    forall id <- s'.shared.vms | Live(s'.shared.vms[id].state) ensures !Quiet(s', id) {
      if step == ClaimStart(id) {
        assert Ticket(id, s.shared.vms[id].generation + 1) in s'.starts;
      } else if step.RegisterInserts? && step.ticket.id == id {
        assert step.pid in s'.monitors && s'.monitors[step.pid].id == id;
      } else {
        StillBusy(s, s', id);
      }
    }
  }

  ghost predicate RevertsInTime(s: System, steps: seq<Step>)
    requires Legal(s, steps)
    decreases |steps|
  {
    steps == []
    || ((steps[0].StopReverts? ==> Live(s.shared.vms[steps[0].ticket.id].state))
        && RevertsInTime(Next(s, steps[0]), steps[1..]))
  }

  /** So in every run whose write-backs all come in time, a live record has a process or a start
      behind it. */
  lemma {:induction false} LiveIsWatched(s: System, steps: seq<Step>)
    requires Orderly(s) && AllWatched(s) && Legal(s, steps) && RevertsInTime(s, steps)
    ensures AllWatched(After(s, steps))
    decreases |steps|
  {
    if steps != [] {
      OrderlyStays(s, steps[0]);
      WatchedStays(s, steps[0]);
      LiveIsWatched(Next(s, steps[0]), steps[1..]);
    }
  }

  /** A handler writes Running only over a VM that is watched. */
  ghost predicate Careful(s: System, step: Step) {
    && Disciplined(s, step)
    && (step.StopReverts? ==> Watched(s, step.ticket.id))
    && (step.MarkRunning? && s.shared.vms[step.ticket.id].state == Starting ==> Watched(s, step.ticket.id))
  }

  lemma StillWatched(s: System, s': System, id: Id)
    requires Watched(s, id)
    requires forall p <- s.monitors :: s.monitors[p].id == id ==> p in s'.monitors && s'.monitors[p].id == id
    ensures Watched(s', id)
  {
  }

  lemma RunningWatchedStays(s: System, step: Step)
    requires Orderly(s) && RunningWatched(s) && Careful(s, step)
    ensures RunningWatched(Next(s, step))
  {
    var s' := Next(s, step);
    forall id <- s'.shared.vms | s'.shared.vms[id].state in {Running, Stopping} ensures Watched(s', id) {
      StillWatched(s, s', id);
    }
  }

  ghost predicate CarefulRun(s: System, steps: seq<Step>)
    decreases |steps|
  {
    steps == [] || (Careful(s, steps[0]) && CarefulRun(Next(s, steps[0]), steps[1..]))
  }

  lemma {:induction false} CarefulIsLegal(s: System, steps: seq<Step>)
    requires CarefulRun(s, steps)
    ensures Legal(s, steps)
    decreases |steps|
  {
    if steps != [] {
      CarefulIsLegal(Next(s, steps[0]), steps[1..]);
    }
  }

  /** So in every run in which handlers write Running over watched VMs only, every running or
      stopping VM has a watched process. */
  lemma {:induction false} RunningIsWatched(s: System, steps: seq<Step>)
    requires Orderly(s) && RunningWatched(s) && CarefulRun(s, steps)
    ensures Legal(s, steps) && RunningWatched(After(s, steps))
    decreases |steps|
  {
    CarefulIsLegal(s, steps);
    if steps != [] {
      OrderlyStays(s, steps[0]);
      RunningWatchedStays(s, steps[0]);
      RunningIsWatched(Next(s, steps[0]), steps[1..]);
    }
  }

  // ----- Handlers that come late

  /** No start or stop of the VM has anything left to do. */
  ghost predicate NoHandler(s: System, id: Id) {
    (forall tail :: tail in s.tails ==> tail.ticket.id != id) && (forall t <- s.starts :: t.id != id)
  }

  predicate WritesRecord(step: Step) {
    step.MarkRunning? || step.LateFailure? || step.StopReverts? || step.StopFinishes? || step.StartFails?
  }

  /** The handler's start is not the VM's latest, and it changes what the latest one put there:
      the record, or the process, which a failing start kills. */
  predicate Hits(s: System, step: Step)
    requires Enabled(s, step)
  {
    && WritesRecord(step)
    && var t := step.ticket;
    || (&& t.id in s.shared.vms && t.generation < s.shared.vms[t.id].generation
        && Next(s, step).shared.vms[t.id] != s.shared.vms[t.id])
    || (&& (step.LateFailure? || step.StartFails?)
        && t.id in s.shared.processes && t.generation < s.shared.processes[t.id].generation)
  }

  predicate Latest(s: System, t: Ticket) {
    t.id in s.shared.vms && s.shared.vms[t.id].generation == t.generation
  }

  ghost predicate HandlersLatest(s: System) {
    && (forall tail :: tail in s.tails ==> Latest(s, tail.ticket))
    && (forall t <- s.starts :: Latest(s, t))
  }

  ghost predicate Patient(s: System, step: Step) {
    Enabled(s, step) && (step.ClaimStart? ==> NoHandler(s, step.id))
  }

  lemma HandlersStay(s: System, step: Step)
    requires Sound(s) && HandlersLatest(s) && Patient(s, step)
    ensures Sound(Next(s, step)) && HandlersLatest(Next(s, step)) && !Hits(s, step)
  {
    EntryNeverDisturbed(s, step);
    LatestStays(s, step);
    if WritesRecord(step) {
      assert Latest(s, step.ticket);
      if step.ticket.id in s.shared.processes {
        var e := s.shared.processes[step.ticket.id];
        assert s.monitors[e.pid] == Monitor(step.ticket.id, e.generation, Waiting);
      }
    }
  }

  lemma LatestStays(s: System, step: Step)
    requires HandlersLatest(s) && Patient(s, step)
    ensures HandlersLatest(Next(s, step))
  {
    var s' := Next(s, step);
    forall tail | tail in s'.tails ensures Latest(s', tail.ticket) {
      TailLatest(s, step, tail);
    }
    forall t <- s'.starts ensures Latest(s', t) {
      StartLatest(s, step, t);
    }
  }

  lemma TailLatest(s: System, step: Step, tail: Tail)
    requires HandlersLatest(s) && Patient(s, step) && tail in Next(s, step).tails
    ensures Latest(Next(s, step), tail.ticket)
  {
    if tail in s.tails {
      GenerationsCountStarts(s, step, tail.ticket.id);
    }
  }

  lemma StartLatest(s: System, step: Step, t: Ticket)
    requires HandlersLatest(s) && Patient(s, step) && t in Next(s, step).starts
    ensures Latest(Next(s, step), t)
  {
    if t in s.starts {
      GenerationsCountStarts(s, step, t.id);
    }
  }

  ghost predicate PatientRun(s: System, steps: seq<Step>)
    decreases |steps|
  {
    steps == [] || (Patient(s, steps[0]) && PatientRun(Next(s, steps[0]), steps[1..]))
  }

  ghost predicate NeverHits(s: System, steps: seq<Step>)
    requires PatientRun(s, steps)
    decreases |steps|
  {
    steps == [] || (!Hits(s, steps[0]) && NeverHits(Next(s, steps[0]), steps[1..]))
  }

  /** While every start waits for the handlers before it, no late handler hits a newer start's
      record or process, in any run. */
  lemma {:induction false} HandlersNeverHit(s: System, steps: seq<Step>)
    requires Sound(s) && HandlersLatest(s) && PatientRun(s, steps)
    ensures NeverHits(s, steps)
    decreases |steps|
  {
    if steps != [] {
      HandlersStay(s, steps[0]);
      HandlersNeverHit(Next(s, steps[0]), steps[1..]);
    }
  }

  ghost predicate SafeFromHandlers(s: System) {
    forall steps: seq<Step> | PatientRun(s, steps) :: NeverHits(s, steps)
  }

  lemma HitNow(s: System, step: Step)
    requires Patient(s, step) && Hits(s, step)
    ensures !SafeFromHandlers(s)
  {
    assert [step][0] == step && [step][1..] == [];
    assert PatientRun(Next(s, step), []);
    assert PatientRun(s, [step]);
    assert !NeverHits(s, [step]);
  }

  lemma HitNext(s: System, step: Step)
    requires Patient(s, step) && !SafeFromHandlers(Next(s, step))
    ensures !SafeFromHandlers(s)
  {
    var steps :| PatientRun(Next(s, step), steps) && !NeverHits(Next(s, step), steps);
    assert ([step] + steps)[0] == step && ([step] + steps)[1..] == steps;
    assert PatientRun(s, [step] + steps);
    assert !NeverHits(s, [step] + steps);
  }

  lemma TailHits(s: System, tail: Tail)
    requires tail in s.tails && tail.ticket.id in s.shared.vms
    requires s.shared.vms[tail.ticket.id].state == Starting
    requires tail.ticket.generation < s.shared.vms[tail.ticket.id].generation
    ensures !SafeFromHandlers(s)
  {
    match tail
    case StartTail(t) => HitNow(s, LateFailure(t));
    case StopTail(t) => HitNow(s, StopReverts(t));
  }

  /** Exactly: a start can be claimed without any handler ever hitting it if and only if no
      earlier start or stop of the VM has anything left to do. */
  lemma NextStartSafeExactly(s: System, id: Id)
    requires Sound(s) && HandlersLatest(s) && Enabled(s, ClaimStart(id))
    ensures SafeFromHandlers(Next(s, ClaimStart(id))) <==> NoHandler(s, id)
  {
    var s' := Next(s, ClaimStart(id));
    if NoHandler(s, id) {
      HandlersStay(s, ClaimStart(id));
      forall steps | PatientRun(s', steps) ensures NeverHits(s', steps) {
        HandlersNeverHit(s', steps);
      }
    } else if tail :| tail in s.tails && tail.ticket.id == id {
      assert Latest(s, tail.ticket);
      TailHits(s', tail);
    } else {
      var t :| t in s.starts && t.id == id;
      assert Latest(s, t);
      StartHits(s', t);
    }
  }

  lemma StartHits(s: System, t: Ticket)
    requires t in s.starts && t.id in s.shared.vms && s.shared.vms[t.id].state == Starting
    requires t.generation < s.shared.vms[t.id].generation
    ensures !SafeFromHandlers(s)
  {
    if s.starts[t] {
      var pid := FreshPid(s.monitors.Keys);
      TailHits(Next(s, RegisterInserts(t, pid)), StartTail(t));
      HitNext(s, RegisterInserts(t, pid));
    } else {
      HitNow(s, StartFails(t, Error));
    }
  }

  /** A handler that has registered its process, or stopped it, is past that start's claim. */
  ghost predicate PastRegistration(s: System) {
    forall tail :: tail in s.tails ==>
      && tail.ticket !in s.starts
      && NotNewer(s.shared, tail.ticket.id, tail.ticket.generation)
  }

  lemma PastRegistrationStays(s: System, step: Step)
    requires Orderly(s) && RunningWatched(s) && PastRegistration(s) && Enabled(s, step)
    ensures PastRegistration(Next(s, step))
  {
    var s' := Next(s, step);
    forall tail | tail in s'.tails
      ensures tail.ticket !in s'.starts && NotNewer(s'.shared, tail.ticket.id, tail.ticket.generation)
    {
      if tail in s.tails {
        GenerationsCountStarts(s, step, tail.ticket.id);
      } else if step.ClaimStop? {
        var pid :| pid in s.monitors && s.monitors[pid].id == step.id;
      }
    }
  }

  /** What a stop can see before it writes Running back: the write keeps every running VM
      watched and hits no newer start if and only if the record is still live and of the start
      that was stopped, or is running already, so that nothing changes. */
  lemma RevertRightExactly(s: System, t: Ticket)
    requires Orderly(s) && AllWatched(s) && RunningWatched(s) && PastRegistration(s) && Enabled(s, StopReverts(t))
    ensures
      var vm := s.shared.vms[t.id];
      RunningWatched(Next(s, StopReverts(t))) && !Hits(s, StopReverts(t)) <==>
        vm.state == Running || (Live(vm.state) && vm.generation == t.generation)
  {
    RevertSafeExactly(s, t);
    WatchedExactly(s, t.id);
    assert t !in s.starts && NotNewer(s.shared, t.id, t.generation);
    forall u <- s.starts | u.id == t.id ensures Current(s, u.id, u.generation) {
    }
  }

  // ----- The failures are reached from an idle system

  lemma {:induction false} OneMore(s: System, steps: seq<Step>, step: Step)
    requires Legal(s, steps) && Disciplined(After(s, steps), step)
    ensures Legal(s, steps + [step]) && After(s, steps + [step]) == Next(After(s, steps), step)
    decreases |steps|
  {
    var all := steps + [step];
    if steps == [] {
      assert all[0] == step && all[1..] == [];
      assert Legal(Next(s, step), []);
    } else {
      assert all[0] == steps[0] && all[1..] == steps[1..] + [step];
      OneMore(Next(s, steps[0]), steps[1..], step);
    }
  }

  ghost predicate Reaches(s: System, s': System) {
    exists steps :: Legal(s, steps) && After(s, steps) == s'
  }

  lemma ReachesItself(s: System)
    ensures Reaches(s, s)
  {
    assert Legal(s, []) && After(s, []) == s;
  }

  lemma ReachesNext(s: System, s': System, step: Step)
    requires Reaches(s, s') && Disciplined(s', step)
    ensures Reaches(s, Next(s', step))
  {
    var steps :| Legal(s, steps) && After(s, steps) == s';
    OneMore(s, steps, step);
  }

  /** One VM, its process if it has one, and the handlers at work on it. */
  function One(
      processes: map<Id, Entry>, vm: Vm, monitors: map<Pid, Monitor>, starts: map<Ticket, bool>, tails: set<Tail>)
    : System
  {
    System(Shared(processes, map[], map[0 := vm]), monitors, starts, tails)
  }

  const NEW_VM: System := One(map[], Vm(Created, 0), map[], map[], {})

  const FIRST: Ticket := Ticket(0, 1)

  const SECOND: Ticket := Ticket(0, 2)

  function WithProcess(state: VmState, tails: set<Tail>): System {
    One(map[0 := Entry(7, 1)], Vm(state, 1), map[7 := Monitor(0, 1, Waiting)], map[], tails)
  }

  function Exiting(phase: Phase): System {
    One(map[], Vm(Stopping, 1), map[7 := Monitor(0, 1, phase)], map[], {StopTail(FIRST)})
  }

  function Over(state: VmState, tails: set<Tail>): System {
    One(map[], Vm(state, 1), map[], map[], tails)
  }

  function Restarting(state: VmState): System {
    One(map[], Vm(state, 2), map[], map[SECOND := false], {StopTail(FIRST)})
  }

  lemma StartReached()
    ensures Reaches(NEW_VM, WithProcess(Starting, {StartTail(FIRST)}))
  {
    var claimed := One(map[], Vm(Starting, 1), map[], map[FIRST := false], {});
    var cleared := One(map[], Vm(Starting, 1), map[], map[FIRST := true], {});
    ReachesItself(NEW_VM);
    ReachesNext(NEW_VM, NEW_VM, ClaimStart(0));
    assert Next(NEW_VM, ClaimStart(0)) == claimed;
    ReachesNext(NEW_VM, claimed, RegisterClears(FIRST));
    assert Next(claimed, RegisterClears(FIRST)) == cleared;
    ReachesNext(NEW_VM, cleared, RegisterInserts(FIRST, 7));
    assert Next(cleared, RegisterInserts(FIRST, 7)) == WithProcess(Starting, {StartTail(FIRST)});
  }

  lemma RunningReached()
    ensures Reaches(NEW_VM, WithProcess(Running, {}))
  {
    var tail := {StartTail(FIRST)};
    StartReached();
    ReachesNext(NEW_VM, WithProcess(Starting, tail), MarkRunning(FIRST));
    assert Next(WithProcess(Starting, tail), MarkRunning(FIRST)) == WithProcess(Running, tail);
    ReachesNext(NEW_VM, WithProcess(Running, tail), Settles(StartTail(FIRST)));
    assert Next(WithProcess(Running, tail), Settles(StartTail(FIRST))) == WithProcess(Running, {});
  }

  lemma StoppingReached()
    ensures Reaches(NEW_VM, WithProcess(Stopping, {StopTail(FIRST)}))
  {
    RunningReached();
    ReachesNext(NEW_VM, WithProcess(Running, {}), ClaimStop(0));
    assert Next(WithProcess(Running, {}), ClaimStop(0)) == WithProcess(Stopping, {StopTail(FIRST)});
  }

  lemma TornDownReached()
    ensures Reaches(NEW_VM, Exiting(TornDown))
  {
    var stopping := WithProcess(Stopping, {StopTail(FIRST)});
    StoppingReached();
    ReachesNext(NEW_VM, stopping, TearsDown(7));
    assert Next(stopping, TearsDown(7)) == Exiting(TornDown);
  }

  lemma ExitReached()
    ensures Reaches(NEW_VM, Over(Stopped, {StopTail(FIRST)}))
  {
    TornDownReached();
    ReachesNext(NEW_VM, Exiting(TornDown), ClearsSamples(7));
    assert Next(Exiting(TornDown), ClearsSamples(7)) == Exiting(Cleared);
    ReachesNext(NEW_VM, Exiting(Cleared), Records(7, true));
    assert Next(Exiting(Cleared), Records(7, true)) == Over(Stopped, {StopTail(FIRST)});
  }

  /** The stop gives up waiting while the monitor is not done: from there the next start can be
      hit. */
  lemma RaceReachable()
    ensures
      var s := WithProcess(Stopping, {StopTail(FIRST)});
      && Idle(NEW_VM) && Reaches(NEW_VM, s)
      && Enabled(s, StopFinishes(FIRST)) && !Safe(Next(s, StopFinishes(FIRST)))
  {
    var s := WithProcess(Stopping, {StopTail(FIRST)});
    StoppingReached();
    assert 7 in s.monitors && s.monitors[7].id == 0;
    ForcedMoveSafeExactly(s, StopFinishes(FIRST));
  }

  /** The process exits, the monitor records it, and then the failed stop writes Running back:
      the VM runs with no process, no monitor and no start. */
  lemma RevertAfterExit()
    ensures
      var s := Over(Running, {StopTail(FIRST)});
      && Idle(NEW_VM) && AllWatched(NEW_VM) && Reaches(NEW_VM, s)
      && s.shared.processes == map[] && Quiet(s, 0) && !AllWatched(s)
  {
    var stopped, s := Over(Stopped, {StopTail(FIRST)}), Over(Running, {StopTail(FIRST)});
    ExitReached();
    ReachesNext(NEW_VM, stopped, StopReverts(FIRST));
    assert Next(stopped, StopReverts(FIRST)) == s;
    assert 0 in s.shared.vms;
  }

  /** The same with the next start claimed in between: the failed stop of the first start hits
      the second one's record, which then runs with no process and no monitor; and a stop of it
      that finishes leaves a state from which a later start can be hit. */
  lemma RevertDuringNextStart()
    ensures
      var before, s := Restarting(Starting), Restarting(Running);
      && Reaches(NEW_VM, before) && Enabled(before, StopReverts(FIRST)) && Hits(before, StopReverts(FIRST))
      && Reaches(NEW_VM, s) && Orderly(s) && AllWatched(s) && !Watched(s, 0) && !RunningWatched(s)
  {
    var stopped, before := Over(Stopped, {StopTail(FIRST)}), Restarting(Starting);
    ExitReached();
    ReachesNext(NEW_VM, stopped, ClaimStart(0));
    assert Next(stopped, ClaimStart(0)) == before;
    ReachesNext(NEW_VM, before, StopReverts(FIRST));
    assert Next(before, StopReverts(FIRST)) == Restarting(Running);
    RestartOrderly();
  }

  lemma RestartOrderly()
    ensures Orderly(Restarting(Running)) && AllWatched(Restarting(Running))
    ensures !Watched(Restarting(Running), 0) && !RunningWatched(Restarting(Running))
  {
    assert SECOND in Restarting(Running).starts;
    assert 0 in Restarting(Running).shared.vms && Restarting(Running).shared.vms[0].state == Running;
  }

  lemma StopDuringNextStart()
    ensures Enabled(Restarting(Running), ClaimStop(0))
    ensures
      var stopping := Next(Restarting(Running), ClaimStop(0));
      Enabled(stopping, StopFinishes(SECOND)) && !Safe(Next(stopping, StopFinishes(SECOND)))
  {
    RestartOrderly();
    OrderlyStays(Restarting(Running), ClaimStop(0));
    var stopping := Next(Restarting(Running), ClaimStop(0));
    assert SECOND in stopping.starts;
    ForcedMoveSafeExactly(stopping, StopFinishes(SECOND));
  }
}
