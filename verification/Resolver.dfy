/** The hand-off between the resolver thread of lib/asyn-thread.c and the thread
    that started it, as interleaved atomic steps on their shared data. The steps
    themselves notice a misuse (memory already freed, a mutex that is not there,
    a result read while it may still be written) and record it as a fault. */
module Resolver {
  import opened CText

  const RESOLVER_ENOMEM := -10

  datatype Mutex = NoMutex | Unlocked | ByParent | ByWorker

  /** struct thread_sync_data. Address lists are numbered as they are made. */
  datatype Sync = Sync(mtx: Mutex, hostname: bool, done: bool, sockError: int, res: Option<nat>)

  const CLEARED := Sync(NoMutex, false, false, 0, None)

  /** Where getaddrinfo_thread() or gethostbyname_thread() is. */
  datatype Worker = NoThread | Starting | Resolving | Failing(error: int) | Locking | Setting | Unlocking | Returning | Exited

  /** Where the parent is: in init_resolve_thread(), a poll, a wait, the
      completion, or destroy_async_data(). */
  datatype Parent =
    | Idle | MakeMutex | CopyHost | CopyAsyncHost | Create | Ready
    | PollLock | PollRead | PollUnlock(seen: bool) | WaitJoin
    | ReadStatus | ReadRes(status: int) | Callback(status: int, ai: Option<nat>) | ClearRes
    | Join | DestroyMutex | FreeHost | FreeRes | Forget | FreeData

  datatype Fault = NoFault | UseAfterFree | BadMutex | EarlyRead

  /** What the thread found out, whoever knows of it. */
  datatype Truth = Unknown | Found(id: nat) | Failed(error: int)

  datatype Disposal = Cached(id: nat) | Freed(id: nat)

  /** What the parent was told, beside the truth and whether storing a list in
      the cache succeeded. */
  datatype Report = Report(status: int, ai: Option<nat>, truth: Truth, stored: bool)

  datatype State = State(
    parent: Parent, worker: Worker,
    /** async.os_specific is allocated, and holds a thread handle. */
    alive: bool, handle: bool, asyncHost: bool, tsd: Sync,
    made: nat, truth: Truth, disposals: seq<Disposal>, reports: seq<Report>, fault: Fault)

  datatype Command = Begin | Poll | Wait | Cancel

  /** One atomic step of either thread. `ok` is the outcome of an allocation, of
      starting the thread or of storing into the cache; `found`, `errno` and `rc`
      are what the lookup yields. */
  datatype Move =
    | ParentMove(command: Command, ok: bool)
    | WorkerMove(found: bool, errno: int, rc: int)

  function Start(): State {
    State(Idle, NoThread, false, false, false, CLEARED, 0, Unknown, [], [], NoFault)
  }

  /** tsd->sock_error after a lookup that failed. */
  function SockError(errno: int, rc: int): (e: int)
    ensures e != 0
  {
    if errno != 0 then errno else if rc != 0 then rc else RESOLVER_ENOMEM
  }

  /** Any use of the shared struct. */
  function Touch(s: State): State {
    if s.alive then s else s.(fault := UseAfterFree)
  }

  function WorkerStep(s: State, found: bool, errno: int, rc: int): State {
    match s.worker
    case NoThread => s
    case Starting =>
      if s.tsd.hostname then Touch(s).(worker := Resolving) else s.(worker := Resolving, fault := UseAfterFree)
    case Resolving =>
      var t := Touch(s);
      if found then
        t.(worker := Locking, tsd := s.tsd.(res := Some(s.made)), made := s.made + 1, truth := Found(s.made))
      else
        var e := SockError(errno, rc);
        t.(worker := Failing(e), tsd := s.tsd.(res := None), truth := Failed(e))
    case Failing(e) =>
      Touch(s).(worker := Locking, tsd := s.tsd.(sockError := e))
    case Locking =>
      var t := Touch(s);
      if s.tsd.mtx.NoMutex? then t.(fault := BadMutex)
      else if s.tsd.mtx.Unlocked? then t.(worker := Setting, tsd := s.tsd.(mtx := ByWorker))
      else t
    case Setting =>
      Touch(s).(worker := Unlocking, tsd := s.tsd.(done := true))
    case Unlocking =>
      Touch(s).(worker := Returning, tsd := s.tsd.(mtx := Unlocked))
    case Returning =>
      s.(worker := Exited)
    case Exited => s
  }

  /** The thread may still write res or sock_error. */
  predicate Writing(w: Worker) {
    w.Starting? || w.Resolving? || w.Failing?
  }

  function ReadResult(s: State): State {
    if Writing(s.worker) then Touch(s).(fault := EarlyRead) else Touch(s)
  }

  /** init_resolve_thread(): a failure on the way leads to destroy_async_data(). */
  function InitStep(s: State, command: Command, ok: bool): State {
    match s.parent
    case Idle =>
      if command.Begin? && ok then
        s.(parent := MakeMutex, alive := true, handle := false, tsd := CLEARED, truth := Unknown)
      else if command.Begin? || command.Cancel? then s.(asyncHost := false)
      else s
    case MakeMutex =>
      if ok then s.(parent := CopyHost, tsd := s.tsd.(mtx := Unlocked)) else s.(parent := Join, tsd := CLEARED)
    case CopyHost =>
      if ok then s.(parent := CopyAsyncHost, tsd := s.tsd.(hostname := true)) else s.(parent := Join, tsd := CLEARED)
    case CopyAsyncHost =>
      s.(parent := if ok then Create else Join, asyncHost := ok)
    case Create =>
      if ok then s.(parent := Ready, handle := true, worker := Starting) else s.(parent := Join)
    case _ => s
  }

  /** The caller polls, waits or cancels: Curl_resolver_is_resolved() up to its
      reading of `done`, Curl_resolver_wait_resolv() up to its join. */
  function CallStep(s: State, command: Command): State {
    match s.parent
    case Ready =>
      (match command
       case Begin => s
       case Poll => s.(parent := PollLock)
       case Wait => s.(parent := WaitJoin)
       case Cancel => s.(parent := Join))
    case PollLock =>
      if s.tsd.mtx.NoMutex? then s.(fault := BadMutex)
      else if s.tsd.mtx.Unlocked? then Touch(s).(parent := PollRead, tsd := s.tsd.(mtx := ByParent))
      else s
    case PollRead =>
      Touch(s).(parent := PollUnlock(s.tsd.done))
    case PollUnlock(seen) =>
      Touch(s).(parent := if seen then ReadStatus else Ready, tsd := s.tsd.(mtx := Unlocked))
    case WaitJoin =>
      if s.worker.Exited? then s.(parent := ReadStatus, worker := NoThread, handle := false) else s
    case _ => s
  }

  /** getaddrinfo_complete() and the callback it makes. */
  function CompleteStep(s: State, ok: bool): State {
    match s.parent
    case ReadStatus =>
      ReadResult(s).(parent := ReadRes(s.tsd.sockError))
    case ReadRes(status) =>
      ReadResult(s).(parent := Callback(status, s.tsd.res))
    case Callback(status, ai) =>
      var t := s.(parent := ClearRes, reports := s.reports + [Report(status, ai, s.truth, ok)]);
      if status == 0 && ai.Some? then
        t.(disposals := s.disposals + [if ok then Cached(ai.value) else Freed(ai.value)])
      else t
    case ClearRes =>
      Touch(s).(parent := Join, tsd := s.tsd.(res := None))
    case _ => s
  }

  /** destroy_async_data() */
  function DestroyStep(s: State): State {
    match s.parent
    case Join =>
      if !s.handle then s.(parent := DestroyMutex)
      else if s.worker.Exited? then s.(parent := DestroyMutex, worker := NoThread, handle := false)
      else s
    case DestroyMutex =>
      var t := Touch(s).(parent := FreeHost, tsd := s.tsd.(mtx := NoMutex));
      if s.tsd.mtx.ByParent? || s.tsd.mtx.ByWorker? then t.(fault := BadMutex) else t
    case FreeHost =>
      Touch(s).(parent := FreeRes, tsd := s.tsd.(hostname := false))
    case FreeRes =>
      var t := Touch(s).(parent := Forget);
      if s.tsd.res.Some? then t.(disposals := s.disposals + [Freed(s.tsd.res.value)]) else t
    case Forget =>
      Touch(s).(parent := FreeData, tsd := CLEARED)
    case FreeData =>
      s.(parent := Idle, alive := false, asyncHost := false)
    case _ => s
  }

  predicate Initialising(p: Parent) {
    p.MakeMutex? || p.CopyHost? || p.CopyAsyncHost? || p.Create?
  }

  /** The parent has seen `done` or has joined the thread. */
  predicate Completing(p: Parent) {
    p.ReadStatus? || p.ReadRes? || p.Callback? || p.ClearRes?
  }

  /** The worker has been joined, or was never there. */
  predicate Dismantling(p: Parent) {
    p.DestroyMutex? || p.FreeHost? || p.FreeRes? || p.Forget? || p.FreeData?
  }

  function ParentStep(s: State, command: Command, ok: bool): State {
    if s.parent.Idle? || Initialising(s.parent) then InitStep(s, command, ok)
    else if Completing(s.parent) then CompleteStep(s, ok)
    else if s.parent.Join? || Dismantling(s.parent) then DestroyStep(s)
    else CallStep(s, command)
  }

  function Step(s: State, m: Move): State {
    match m
    case ParentMove(command, ok) => ParentStep(s, command, ok)
    case WorkerMove(found, errno, rc) => WorkerStep(s, found, errno, rc)
  }

  /** Any interleaving is a sequence of moves. A blocked move leaves the state. */
  function Run(s: State, moves: seq<Move>): State
    decreases |moves|
  {
    if moves == [] then s else Run(Step(s, moves[0]), moves[1..])
  }

  // ----- the invariant

  /** Who holds the mutex, and whether the thread runs. */
  predicate Ownership(s: State) {
    && (s.alive <==> !s.parent.Idle?)
    && (s.handle <==> !s.worker.NoThread?)
    && (s.handle ==> !s.parent.Idle? && !Initialising(s.parent) && !Dismantling(s.parent))
    && (s.handle ==> !s.tsd.mtx.NoMutex? && s.tsd.hostname)
    && (s.parent.CopyHost? || s.parent.CopyAsyncHost? || s.parent.Create? ==> s.tsd.mtx.Unlocked?)
    && (s.parent.CopyAsyncHost? || s.parent.Create? ==> s.tsd.hostname)
    && (s.tsd.mtx.ByWorker? <==> s.worker.Setting? || s.worker.Unlocking?)
    && (s.tsd.mtx.ByParent? <==> s.parent.PollRead? || s.parent.PollUnlock?)
    && (s.parent.Ready? || s.parent.PollLock? || s.parent.PollRead? || s.parent.PollUnlock? || s.parent.WaitJoin? ==> s.handle)
  }

  /** When `done` is set, and when the parent may look. */
  predicate Progress(s: State) {
    && (s.tsd.done ==> s.worker.Unlocking? || s.worker.Returning? || s.worker.Exited? || s.worker.NoThread?)
    && (s.worker.Unlocking? || s.worker.Returning? || s.worker.Exited? ==> s.tsd.done)
    && (Initialising(s.parent) || s.worker.Starting? || s.worker.Resolving? ==> !s.tsd.done)
    && (Completing(s.parent) ==> s.tsd.done)
    && (s.parent.PollUnlock? && s.parent.seen ==> s.tsd.done)
    && (s.parent.Idle? || s.parent.FreeData? ==> s.tsd == CLEARED)
  }

  /** What the shared result says. */
  predicate Results(s: State) {
    && (s.worker.Starting? || s.worker.Resolving? || Initialising(s.parent) ==>
          s.truth.Unknown? && s.tsd.res.None? && s.tsd.sockError == 0)
    && (s.worker.Failing? ==>
          s.truth == Failed(s.worker.error) && s.worker.error != 0 && s.tsd.res.None? && s.tsd.sockError == 0)
    && (s.worker.Locking? || s.worker.Setting? || s.tsd.done ==> Told(s))
    && (s.parent.ReadRes? ==> s.parent.status == s.tsd.sockError)
    && (s.parent.Callback? ==> s.parent.status == s.tsd.sockError && s.parent.ai == s.tsd.res)
  }

  /** sock_error and res agree with what the thread found. */
  predicate Told(s: State) {
    match s.truth
    case Unknown => false
    case Failed(e) => e != 0 && s.tsd.sockError == e && s.tsd.res.None?
    case Found(id) => s.tsd.sockError == 0 && (s.tsd.res == Some(id) || Given(s.parent))
  }

  /** The parent has given res away or is past looking at it. */
  predicate Given(p: Parent) {
    p.ClearRes? || p.Join? || Dismantling(p)
  }

  /** The list nobody has disposed of yet. */
  function Live(s: State): Option<nat> {
    if s.parent.ClearRes? || s.parent.Forget? then None else s.tsd.res
  }

  function CountOf(disposals: seq<Disposal>, id: nat): nat {
    if disposals == [] then 0
    else (if disposals[0].id == id then 1 else 0) + CountOf(disposals[1..], id)
  }

  /** Every list made is disposed of once, except the one still live. */
  ghost predicate Conserved(s: State) {
    && (s.tsd.res.Some? ==> s.tsd.res.value < s.made)
    && forall id: nat :: CountOf(s.disposals, id) == if id < s.made && Live(s) != Some(id) then 1 else 0
  }

  /** What became of a list, if it was disposed of. */
  function FateOf(disposals: seq<Disposal>, id: nat): Option<Disposal> {
    if disposals == [] then None
    else if disposals[0].id == id then Some(disposals[0])
    else FateOf(disposals[1..], id)
  }

  /** Whether a list was told to the parent with status 0, and then whether it
      was stored in the cache. */
  function StoreOf(reports: seq<Report>, id: nat): Option<bool> {
    if reports == [] then None
    else if reports[0].status == 0 && reports[0].ai == Some(id) then Some(reports[0].stored)
    else StoreOf(reports[1..], id)
  }

  /** A list is cached when its store succeeded, and freed otherwise. */
  ghost predicate Fated(s: State) {
    forall id: nat :: FateIs(s, id)
  }

  predicate FateIs(s: State, id: nat) {
    && (StoreOf(s.reports, id).Some? ==> id < s.made && Live(s) != Some(id))
    && FateOf(s.disposals, id) ==
       if id >= s.made || Live(s) == Some(id) then None
       else if StoreOf(s.reports, id) == Some(true) then Some(Cached(id))
       else Some(Freed(id))
  }

  /** The parent was told nothing but the truth. */
  predicate Truthful(reports: seq<Report>) {
    forall i :: 0 <= i < |reports| ==>
      match reports[i].truth
      case Unknown => false
      case Failed(e) => e != 0 && reports[i].status == e && reports[i].ai.None?
      case Found(id) => reports[i].status == 0 && reports[i].ai == Some(id)
  }

  ghost predicate Inv(s: State) {
    s.fault.NoFault? && Ownership(s) && Progress(s) && Results(s) && Conserved(s) && Truthful(s.reports)
  }

  lemma {:induction false} CountAppend(disposals: seq<Disposal>, d: Disposal, id: nat)
    ensures CountOf(disposals + [d], id) == CountOf(disposals, id) + if d.id == id then 1 else 0
  {
    if disposals == [] {
      assert (disposals + [d])[1..] == [];
    } else {
      CountAppend(disposals[1..], d, id);
      assert (disposals + [d])[1..] == disposals[1..] + [d];
    }
  }

  lemma {:induction false} FateAppend(disposals: seq<Disposal>, d: Disposal, id: nat)
    ensures FateOf(disposals + [d], id) ==
            if FateOf(disposals, id).Some? then FateOf(disposals, id) else if d.id == id then Some(d) else None
  {
    if disposals == [] {
      assert (disposals + [d])[1..] == [];
    } else {
      FateAppend(disposals[1..], d, id);
      assert (disposals + [d])[1..] == disposals[1..] + [d];
    }
  }

  lemma {:induction false} StoreAppend(reports: seq<Report>, r: Report, id: nat)
    ensures StoreOf(reports + [r], id) ==
            if StoreOf(reports, id).Some? then StoreOf(reports, id)
            else if r.status == 0 && r.ai == Some(id) then Some(r.stored) else None
  {
    if reports == [] {
      assert (reports + [r])[1..] == [];
    } else {
      StoreAppend(reports[1..], r, id);
      assert (reports + [r])[1..] == reports[1..] + [r];
    }
  }

  /** No step changes what became of a list, or makes it anything else. */
  lemma StepKeepsFate(s: State, m: Move, id: nat)
    requires Inv(s) && FateIs(s, id)
    ensures FateIs(Step(s, m), id)
  {
    match m {
      case ParentMove(command, ok) =>
        if s.parent.Callback? {
          CallbackKeepsFate(s, ok, id);
        } else if s.parent.FreeRes? {
          FreeKeepsFate(s, id);
        } else {
          OtherKeepsFate(s, command, ok, id);
        }
      case WorkerMove(found, errno, rc) =>
        WorkerKeepsFate(s, found, errno, rc, id);
    }
  }

  lemma StepKeepsFates(s: State, m: Move)
    requires Inv(s) && Fated(s)
    ensures Fated(Step(s, m))
  {
    forall id: nat ensures FateIs(Step(s, m), id) {
      assert FateIs(s, id);
      StepKeepsFate(s, m, id);
    }
  }

  lemma WorkerKeepsFate(s: State, found: bool, errno: int, rc: int, id: nat)
    requires Inv(s) && FateIs(s, id)
    ensures FateIs(WorkerStep(s, found, errno, rc), id)
  {
  }

  lemma OtherKeepsFate(s: State, command: Command, ok: bool, id: nat)
    requires Inv(s) && FateIs(s, id) && !s.parent.Callback? && !s.parent.FreeRes?
    ensures FateIs(ParentStep(s, command, ok), id)
  {
    InitTouchesNoList(s, command, ok);
    CallTouchesNoList(s, command);
    CompleteTouchesNoList(s, ok);
    DestroyTouchesNoList(s);
  }

  /** Nothing is made, told or disposed of. */
  predicate SameLists(s: State, t: State) {
    t.disposals == s.disposals && t.reports == s.reports && t.made == s.made && Live(t) == Live(s)
  }

  // Only the callback and the freeing of the shared data dispose of lists.
  lemma InitTouchesNoList(s: State, command: Command, ok: bool)
    requires Inv(s)
    ensures SameLists(s, InitStep(s, command, ok))
  {
  }

  lemma CallTouchesNoList(s: State, command: Command)
    requires Inv(s)
    ensures SameLists(s, CallStep(s, command))
  {
  }

  lemma CompleteTouchesNoList(s: State, ok: bool)
    requires Inv(s) && !s.parent.Callback?
    ensures SameLists(s, CompleteStep(s, ok))
  {
  }

  lemma DestroyTouchesNoList(s: State)
    requires Inv(s) && !s.parent.FreeRes?
    ensures SameLists(s, DestroyStep(s))
  {
  }

  lemma FreeKeepsFate(s: State, id: nat)
    requires Ownership(s) && Conserved(s) && FateIs(s, id) && s.parent.FreeRes?
    ensures FateIs(DestroyStep(s), id)
  {
    if s.tsd.res.Some? {
      FateAppend(s.disposals, Freed(s.tsd.res.value), id);
    }
  }

  lemma CallbackKeepsFate(s: State, ok: bool, id: nat)
    requires Inv(s) && FateIs(s, id) && s.parent.Callback?
    ensures FateIs(CompleteStep(s, ok), id)
  {
    var p := s.parent;
    StoreAppend(s.reports, Report(p.status, p.ai, s.truth, ok), id);
    if p.status == 0 && p.ai.Some? {
      FateAppend(s.disposals, Cached(p.ai.value), id);
      FateAppend(s.disposals, Freed(p.ai.value), id);
    }
  }

  lemma {:induction false} RunKeepsFates(s: State, moves: seq<Move>)
    requires Inv(s) && Fated(s)
    ensures Fated(Run(s, moves))
    decreases |moves|
  {
    if moves != [] {
      StepKeepsInv(s, moves[0]);
      StepKeepsFates(s, moves[0]);
      RunKeepsFates(Step(s, moves[0]), moves[1..]);
    }
  }

  lemma WorkerKeepsInv(s: State, found: bool, errno: int, rc: int)
    requires Inv(s)
    ensures Inv(WorkerStep(s, found, errno, rc))
  {
    WorkerKeepsOwnership(s, found, errno, rc);
  }

  lemma WorkerKeepsOwnership(s: State, found: bool, errno: int, rc: int)
    requires s.fault.NoFault? && Ownership(s) && Progress(s)
    ensures var t := WorkerStep(s, found, errno, rc); t.fault.NoFault? && Ownership(t) && Progress(t)
  {
  }

  lemma InitKeepsInv(s: State, command: Command, ok: bool)
    requires Inv(s)
    ensures Inv(InitStep(s, command, ok))
  {
  }

  lemma CallKeepsInv(s: State, command: Command)
    requires Inv(s)
    ensures Inv(CallStep(s, command))
  {
    CallKeepsOwnership(s, command);
    CallKeepsResults(s, command);
  }

  lemma CallKeepsOwnership(s: State, command: Command)
    requires s.fault.NoFault? && Ownership(s) && Progress(s)
    ensures var t := CallStep(s, command); t.fault.NoFault? && Ownership(t) && Progress(t)
  {
  }

  lemma CallKeepsResults(s: State, command: Command)
    requires Ownership(s) && Progress(s) && Results(s) && Conserved(s)
    ensures var t := CallStep(s, command); Results(t) && Conserved(t) && t.reports == s.reports
  {
  }

  lemma CompleteKeepsInv(s: State, ok: bool)
    requires Inv(s)
    ensures Inv(CompleteStep(s, ok))
  {
    CompleteKeepsOwnership(s, ok);
    if s.parent.Callback? && s.tsd.res.Some? {
      Disposed(s, CompleteStep(s, ok));
    }
  }

  lemma CompleteKeepsOwnership(s: State, ok: bool)
    requires s.fault.NoFault? && Ownership(s) && Progress(s)
    ensures var t := CompleteStep(s, ok); t.fault.NoFault? && Ownership(t) && Progress(t)
  {
  }

  lemma DestroyKeepsInv(s: State)
    requires Inv(s)
    ensures Inv(DestroyStep(s))
  {
    DestroyKeepsOwnership(s);
    DestroyKeepsResults(s);
    DestroyConserves(s);
  }

  lemma DestroyKeepsResults(s: State)
    requires Ownership(s) && Progress(s) && Results(s)
    ensures Results(DestroyStep(s)) && DestroyStep(s).reports == s.reports
  {
  }

  lemma DestroyConserves(s: State)
    requires Ownership(s) && Progress(s) && Conserved(s)
    ensures Conserved(DestroyStep(s))
  {
    if s.parent.FreeRes? && s.tsd.res.Some? {
      Disposed(s, DestroyStep(s));
    }
  }

  lemma DestroyKeepsOwnership(s: State)
    requires s.fault.NoFault? && Ownership(s) && Progress(s)
    ensures var t := DestroyStep(s); t.fault.NoFault? && Ownership(t) && Progress(t)
  {
  }

  /** A step that disposes of the live list. */
  lemma Disposed(s: State, t: State)
    requires Conserved(s) && Live(s).Some? && Live(t).None?
    requires |t.disposals| == |s.disposals| + 1 && t.disposals[..|s.disposals|] == s.disposals
    requires t.disposals[|s.disposals|].id == Live(s).value
    requires t.made == s.made && t.tsd.res == s.tsd.res
    ensures Conserved(t)
  {
    var d := t.disposals[|s.disposals|];
    assert t.disposals == s.disposals + [d];
    forall id: nat ensures CountOf(t.disposals, id) == CountOf(s.disposals, id) + if d.id == id then 1 else 0 {
      CountAppend(s.disposals, d, id);
    }
  }

  /** No step of either thread leaves the invariant. */
  lemma StepKeepsInv(s: State, m: Move)
    requires Inv(s)
    ensures Inv(Step(s, m))
  {
    match m {
      case ParentMove(command, ok) =>
        InitKeepsInv(s, command, ok);
        CallKeepsInv(s, command);
        CompleteKeepsInv(s, ok);
        DestroyKeepsInv(s);
      case WorkerMove(found, errno, rc) =>
        WorkerKeepsInv(s, found, errno, rc);
    }
  }

  lemma {:induction false} RunKeepsInv(s: State, moves: seq<Move>)
    requires Inv(s)
    ensures Inv(Run(s, moves))
    decreases |moves|
  {
    if moves != [] {
      StepKeepsInv(s, moves[0]);
      RunKeepsInv(Step(s, moves[0]), moves[1..]);
    }
  }

  // ----- what holds of every interleaving

  /** No thread ever touches freed data or a missing or destroyed mutex, and the
      parent never reads a result that may still be written. */
  lemma EveryRunIsSafe(moves: seq<Move>)
    ensures Run(Start(), moves).fault.NoFault?
  {
    RunKeepsInv(Start(), moves);
  }

  /** The parent reads only after it has seen `done` or joined the thread, and is
      told exactly what the thread found. */
  lemma EveryReportIsTrue(moves: seq<Move>)
    ensures var s := Run(Start(), moves);
            && Truthful(s.reports)
            && (s.parent.ReadStatus? || s.parent.ReadRes? ==> s.tsd.done && !Writing(s.worker))
  {
    RunKeepsInv(Start(), moves);
  }

  /** Each address list is handed to the cache or freed at most once at any time,
      and exactly once when the parent is through. */
  lemma EveryListGoesOnce(moves: seq<Move>, id: nat)
    ensures var s := Run(Start(), moves);
            && CountOf(s.disposals, id) <= (if id < s.made then 1 else 0)
            && (s.parent.Idle? ==> CountOf(s.disposals, id) == if id < s.made then 1 else 0)
  {
    RunKeepsInv(Start(), moves);
  }

  /** When the parent is through, a list is in the cache if and only if the parent
      was told of it with status 0 and its store succeeded; it was freed if and
      only if the store failed or the parent was never told of it. */
  lemma EveryListGoesWhereItShould(moves: seq<Move>, id: nat)
    requires Run(Start(), moves).parent.Idle? && id < Run(Start(), moves).made
    ensures var s := Run(Start(), moves);
            && (FateOf(s.disposals, id) == Some(Cached(id)) <==> StoreOf(s.reports, id) == Some(true))
            && (FateOf(s.disposals, id) == Some(Freed(id)) <==> StoreOf(s.reports, id) != Some(true))
  {
    RunKeepsInv(Start(), moves);
    RunKeepsFates(Start(), moves);
    assert FateIs(Run(Start(), moves), id);
  }

  /** Unless the parent has nothing to do, one of the threads can take a step. */
  lemma NeverStuck(moves: seq<Move>)
    ensures var s := Run(Start(), moves);
            s.parent.Idle? || CanMove(s)
  {
    RunKeepsInv(Start(), moves);
    var s := Run(Start(), moves);
    if !s.parent.Idle? {
      SomeoneMoves(s);
    }
  }

  /** Some move of some thread changes the state. */
  ghost predicate CanMove(s: State) {
    exists m :: Step(s, m) != s
  }

  lemma SomeoneMoves(s: State)
    requires Inv(s) && !s.parent.Idle?
    ensures CanMove(s)
  {
    if s.worker.NoThread? || s.worker.Exited? || (s.worker.Locking? && s.tsd.mtx.ByParent?) {
      assert ParentStep(s, Poll, true).parent != s.parent;
      assert Step(s, ParentMove(Poll, true)) != s;
    } else {
      assert WorkerStep(s, true, 0, 0).worker != s.worker;
      assert Step(s, WorkerMove(true, 0, 0)) != s;
    }
  }

  // ----- cancelling and completing come to an end

  function WorkerLeft(w: Worker): nat {
    match w
    case NoThread => 0
    case Starting => 7
    case Resolving => 6
    case Failing(_) => 5
    case Locking => 4
    case Setting => 3
    case Unlocking => 2
    case Returning => 1
    case Exited => 0
  }

  /** Steps the parent still has to take once it completes, waits or cancels. */
  function ParentLeft(p: Parent): nat {
    match p
    case WaitJoin => 11
    case ReadStatus => 10
    case ReadRes(_) => 9
    case Callback(_, _) => 8
    case ClearRes => 7
    case Join => 6
    case DestroyMutex => 5
    case FreeHost => 4
    case FreeRes => 3
    case Forget => 2
    case FreeData => 1
    case _ => 0
  }

  function Left(s: State): nat {
    WorkerLeft(s.worker) + ParentLeft(s.parent)
  }

  /** Once the parent waits, completes or cancels, every step that does anything
      brings it nearer to the end, and there always is one: under any schedule
      that keeps giving both threads turns, the call returns. */
  lemma CallsReturn(s: State, m: Move)
    requires Inv(s) && ParentLeft(s.parent) > 0
    ensures Step(s, m) == s || Left(Step(s, m)) < Left(s)
    ensures ParentLeft(Step(s, m).parent) > 0 || Step(s, m).parent.Idle?
    ensures CanMove(s)
  {
    MovesDescend(s, m);
    SomeoneMoves(s);
  }

  lemma MovesDescend(s: State, m: Move)
    requires Ownership(s) && Progress(s) && ParentLeft(s.parent) > 0
    ensures Step(s, m) == s || Left(Step(s, m)) < Left(s)
    ensures ParentLeft(Step(s, m).parent) > 0 || Step(s, m).parent.Idle?
  {
    match m {
      case WorkerMove(found, errno, rc) => WorkerDescends(s, found, errno, rc);
      case ParentMove(command, ok) =>
    }
  }

  lemma WorkerDescends(s: State, found: bool, errno: int, rc: int)
    requires Ownership(s)
    ensures var t := WorkerStep(s, found, errno, rc);
            t.parent == s.parent && (t == s || WorkerLeft(t.worker) < WorkerLeft(s.worker))
  {
  }

  // ----- what a poll, a wait and a cancellation come to

  /** The parent takes n steps while the thread does nothing. */
  function Alone(s: State, command: Command, ok: bool, n: nat): State
    decreases n
  {
    if n == 0 then s else Alone(ParentStep(s, command, ok), command, ok, n - 1)
  }

  lemma AloneNext(s: State, command: Command, ok: bool, n: nat)
    requires n > 0
    ensures Alone(s, command, ok, n) == Alone(ParentStep(s, command, ok), command, ok, n - 1)
  {
  }

  /** A poll goes through four steps, back to where it was or on to the result. */
  lemma PollSteps(s: State, ok: bool, n: nat)
    requires Inv(s) && s.parent.Ready? && s.tsd.mtx.Unlocked? && n >= 4
    ensures Alone(s, Poll, ok, n) == Alone(if s.tsd.done then s.(parent := ReadStatus) else s, Poll, ok, n - 4)
  {
    var a := s.(parent := PollLock);
    var b := s.(parent := PollRead, tsd := s.tsd.(mtx := ByParent));
    var c := b.(parent := PollUnlock(s.tsd.done));
    assert ParentStep(s, Poll, ok) == a && ParentStep(a, Poll, ok) == b && ParentStep(b, Poll, ok) == c;
    assert ParentStep(c, Poll, ok) == if s.tsd.done then s.(parent := ReadStatus) else s;
    AloneNext(s, Poll, ok, n);
    AloneNext(a, Poll, ok, n - 1);
    AloneNext(b, Poll, ok, n - 2);
    AloneNext(c, Poll, ok, n - 3);
  }

  /** The reports there will be once the parent is through. */
  function Due(s: State, ok: bool): seq<Report> {
    if s.parent.WaitJoin? || s.parent.ReadStatus? || s.parent.ReadRes? || s.parent.Callback?
    then s.reports + [Report(s.tsd.sockError, s.tsd.res, s.truth, ok)]
    else s.reports
  }

  /** The parent is one step nearer to the end, and will have told the same. */
  predicate Nearer(s: State, t: State, ok: bool) {
    && ParentLeft(t.parent) == ParentLeft(s.parent) - 1 && (t.parent.Idle? <==> ParentLeft(s.parent) == 1)
    && Due(t, ok) == Due(s, ok) && (t.worker.Exited? || t.worker.NoThread?)
  }

  lemma CompleteComesNearer(s: State, ok: bool)
    requires Inv(s) && Completing(s.parent) && (s.worker.Exited? || s.worker.NoThread?)
    ensures Nearer(s, CompleteStep(s, ok), ok)
  {
  }

  lemma DestroyComesNearer(s: State, ok: bool)
    requires Inv(s) && (s.parent.Join? || Dismantling(s.parent)) && (s.worker.Exited? || s.worker.NoThread?)
    ensures Nearer(s, DestroyStep(s), ok)
  {
  }

  lemma JoinComesNearer(s: State, command: Command, ok: bool)
    requires Inv(s) && s.parent.WaitJoin? && (s.worker.Exited? || s.worker.NoThread?)
    ensures Nearer(s, CallStep(s, command), ok)
  {
  }

  lemma ComesNearer(s: State, command: Command, ok: bool)
    requires Inv(s) && ParentLeft(s.parent) > 0 && (s.worker.Exited? || s.worker.NoThread?)
    ensures Nearer(s, ParentStep(s, command, ok), ok)
  {
    if Completing(s.parent) {
      CompleteComesNearer(s, ok);
    } else if s.parent.WaitJoin? {
      JoinComesNearer(s, command, ok);
    } else {
      DestroyComesNearer(s, ok);
    }
  }

  /** When the thread has exited, the parent gets through on its own. */
  lemma {:induction false} GetsThrough(s: State, command: Command, ok: bool)
    requires Inv(s) && ParentLeft(s.parent) > 0 && (s.worker.Exited? || s.worker.NoThread?)
    ensures var t := Alone(s, command, ok, ParentLeft(s.parent));
            t.parent.Idle? && t.reports == Due(s, ok)
    decreases ParentLeft(s.parent)
  {
    var t := ParentStep(s, command, ok);
    ComesNearer(s, command, ok);
    AloneNext(s, command, ok, ParentLeft(s.parent));
    StepKeepsInv(s, ParentMove(command, ok));
    if ParentLeft(t.parent) > 0 {
      GetsThrough(t, command, ok);
    }
  }

  /** What the parent is told of a thread that has exited. */
  function Outcome(truth: Truth, ok: bool): Report {
    match truth
    case Found(id) => Report(0, Some(id), truth, ok)
    case Failed(e) => Report(e, None, truth, ok)
    case Unknown => Report(0, None, truth, ok)
  }

  /** A poll before the thread is done is over after four steps, and tells and
      changes nothing. */
  lemma PollOfUndone(s: State, ok: bool, n: nat)
    requires Inv(s) && s.parent.Ready? && !s.tsd.done && s.tsd.mtx.Unlocked? && n == 4
    ensures Alone(s, Poll, ok, n) == s
  {
    PollSteps(s, ok, n);
  }

  /** A poll after the thread has exited tells the outcome, and the parent is
      through. */
  lemma PollDelivers(s: State, ok: bool, n: nat)
    requires Inv(s) && s.parent.Ready? && s.worker.Exited? && n == 14
    ensures var t := Alone(s, Poll, ok, n); t.parent.Idle? && t.reports == s.reports + [Outcome(s.truth, ok)]
  {
    PollSteps(s, ok, n);
    Through(s, s.(parent := ReadStatus), Poll, ok);
  }

  /** So does a wait. */
  lemma WaitDelivers(s: State, ok: bool, n: nat)
    requires Inv(s) && s.parent.Ready? && s.worker.Exited? && n == 12
    ensures var t := Alone(s, Wait, ok, n); t.parent.Idle? && t.reports == s.reports + [Outcome(s.truth, ok)]
  {
    AloneNext(s, Wait, ok, n);
    assert ParentStep(s, Wait, ok) == s.(parent := WaitJoin);
    Through(s, s.(parent := WaitJoin), Wait, ok);
  }

  /** A cancellation tells nothing. */
  lemma CancelDelivers(s: State, ok: bool, n: nat)
    requires Inv(s) && s.parent.Ready? && s.worker.Exited? && n == 7
    ensures var t := Alone(s, Cancel, ok, n); t.parent.Idle? && t.reports == s.reports
  {
    AloneNext(s, Cancel, ok, n);
    assert ParentStep(s, Cancel, ok) == s.(parent := Join);
    Through(s, s.(parent := Join), Cancel, ok);
  }

  lemma Through(s: State, t: State, command: Command, ok: bool)
    requires Inv(s) && s.parent.Ready? && s.worker.Exited?
    requires t == s.(parent := t.parent) && (t.parent.ReadStatus? || t.parent.WaitJoin? || t.parent.Join?)
    ensures var end := Alone(t, command, ok, ParentLeft(t.parent));
            end.parent.Idle? && end.reports == if t.parent.Join? then s.reports else s.reports + [Outcome(s.truth, ok)]
  {
    GoesOn(s, t);
    GetsThrough(t, command, ok);
  }

  lemma GoesOn(s: State, t: State)
    requires Inv(s) && s.parent.Ready? && s.worker.Exited?
    requires t == s.(parent := t.parent) && (t.parent.ReadStatus? || t.parent.WaitJoin? || t.parent.Join?)
    ensures Inv(t) && Told(s)
  {
  }

  /** When nothing fails, the parent gets the thread going in five steps. */
  lemma BeginStarts(s: State, n: nat)
    requires Inv(s) && s.parent.Idle? && n == 5
    ensures Alone(s, Begin, true, n) == Begun(s)
  {
    var a := s.(parent := MakeMutex, alive := true, handle := false, tsd := CLEARED, truth := Unknown);
    var b := a.(parent := CopyHost, tsd := CLEARED.(mtx := Unlocked));
    var c := b.(parent := CopyAsyncHost, tsd := b.tsd.(hostname := true));
    var d := c.(parent := Create, asyncHost := true);
    assert ParentStep(s, Begin, true) == a && ParentStep(a, Begin, true) == b && ParentStep(b, Begin, true) == c;
    assert ParentStep(c, Begin, true) == d && ParentStep(d, Begin, true) == Begun(s);
    AloneNext(s, Begin, true, n);
    AloneNext(a, Begin, true, n - 1);
    AloneNext(b, Begin, true, n - 2);
    AloneNext(c, Begin, true, n - 3);
    AloneNext(d, Begin, true, n - 4);
  }

  /** The thread is started on a hostname of its own, with nothing found yet. */
  function Begun(s: State): State {
    s.(parent := Ready, worker := Starting, alive := true, handle := true, asyncHost := true,
       tsd := Sync(Unlocked, true, false, 0, None), truth := Unknown)
  }

  /** An allocation that fails, or a thread that cannot be started, leads to the
      end of the call with nothing told. */
  lemma {:induction false} FailedBeginEnds(s: State, command: Command)
    requires Inv(s) && Initialising(s.parent)
    ensures var t := ParentStep(s, command, false); t.parent.Join? && t.worker.NoThread?
    ensures var t := Alone(ParentStep(s, command, false), command, false, 6); t.parent.Idle? && t.reports == s.reports
  {
    var t := ParentStep(s, command, false);
    StepKeepsInv(s, ParentMove(command, false));
    GetsThrough(t, command, false);
  }

  /** The thread takes n steps while the parent does nothing. */
  function ThreadAlone(s: State, found: bool, errno: int, rc: int, n: nat): State
    decreases n
  {
    if n == 0 then s else ThreadAlone(WorkerStep(s, found, errno, rc), found, errno, rc, n - 1)
  }

  lemma ThreadNext(s: State, found: bool, errno: int, rc: int, n: nat)
    requires n > 0
    ensures ThreadAlone(s, found, errno, rc, n) ==
            ThreadAlone(WorkerStep(s, found, errno, rc), found, errno, rc, n - 1)
  {
  }

  /** With the result written, the thread sets `done` under the mutex and exits. */
  lemma ThreadEnds(s: State, found: bool, errno: int, rc: int, n: nat)
    requires s.alive && s.worker.Locking? && s.tsd.mtx.Unlocked? && n == 4
    ensures ThreadAlone(s, found, errno, rc, n) == s.(worker := Exited, tsd := s.tsd.(done := true))
  {
    var a := s.(worker := Setting, tsd := s.tsd.(mtx := ByWorker));
    var b := a.(worker := Unlocking, tsd := a.tsd.(done := true));
    var c := b.(worker := Returning, tsd := b.tsd.(mtx := Unlocked));
    ThreadNext(s, found, errno, rc, n);
    ThreadNext(a, found, errno, rc, n - 1);
    ThreadNext(b, found, errno, rc, n - 2);
    ThreadNext(c, found, errno, rc, n - 3);
  }

  /** A thread just started finds the next list, or nothing, and exits. */
  lemma ThreadResolves(s: State, found: bool, errno: int, rc: int, n: nat)
    requires s.alive && s.worker.Starting? && s.tsd == Sync(Unlocked, true, false, 0, None)
    requires n == if found then 6 else 7
    ensures var t := ThreadAlone(s, found, errno, rc, n);
            && t.worker.Exited? && t.parent == s.parent
            && (found ==> t.truth == Found(s.made) && t.made == s.made + 1 && t.tsd.res == Some(s.made) && t.tsd.sockError == 0)
            && (!found ==> t.truth == Failed(t.tsd.sockError) && t.made == s.made && t.tsd.res.None?)
            && (!found && errno != 0 ==> t.tsd.sockError == errno)
            && (!found && errno == 0 && rc != 0 ==> t.tsd.sockError == rc)
            && (!found && errno == 0 && rc == 0 ==> t.tsd.sockError == -10)
  {
    var a := s.(worker := Resolving);
    var b := WorkerStep(a, found, errno, rc);
    ThreadNext(s, found, errno, rc, n);
    ThreadNext(a, found, errno, rc, n - 1);
    if found {
      ThreadEnds(b, found, errno, rc, n - 2);
    } else {
      ThreadNext(b, found, errno, rc, n - 2);
      ThreadEnds(WorkerStep(b, found, errno, rc), found, errno, rc, n - 3);
    }
  }
}
