/**
  The hand-off between the polling thread of the Kafka stream reader and the
  threads that call `read` and `return_loan` on it.

  One shared slot (the message pointer `rkm` and the byte sequence `payload` that
  borrows the message's buffer) is protected by two binary semaphores: `pollSem`,
  initially available, and `readSem`, initially taken.  Every access to shared
  state is one atomic `Action`; a run is any sequence of enabled actions, so the
  theorems below range over every interleaving, every result of the library calls
  and any number of reader threads.
 */
module KafkaHandshake {
  import opened Wrappers
  import opened Subsequences

  type Bytes = seq<bv8>

  /** What `rd_kafka_consumer_poll` can return besides NULL. */
  datatype Message = Good(payload: Bytes) | ConsumerError

  datatype PollerPc =
    | LoopHead       // about to test `run_thread`
    | Waiting        // in the loop, waiting to take `pollSem`
    | Polling        // owns the slot, about to poll
    | TimedOut       // poll returned NULL, about to give `pollSem`
    | Received       // poll returned a proper message
    | Initialised    // `payload` is an empty sequence
    | Loaned         // `payload` borrows the message's buffer
    | Notified       // listener called, about to give `readSem`
    | Cleaning       // entered `error_cleanup`, about to destroy the message
    | Cleaned        // message destroyed, about to give `pollSem`
    | Exited

  datatype ReaderPc =
    | Idle
    | Copying        // `read` took `readSem`
    | Holding        // `read` returned count 1; a loan is outstanding
    | Returning      // `return_loan` destroyed the message, about to give `pollSem`

  /** What the thread does after `error_cleanup` reports success: the code leaves
      the loop, although the comment beside it calls such errors informational. */
  datatype AfterCleanup = LeaveThread | KeepPolling

  /** What became of a polled message. */
  datatype Fate = InFlight | Discarded | SetupFailed | CopyFailed | HandedOut

  /** Who owns the slot. */
  datatype Place = PollFree | WithPoller | ReadFree | WithReader(r: nat) | Lost

  datatype History = History(
    messages: seq<Message>,    // every non-NULL result of polling, in order
    fates: seq<Fate>,          // one per message
    destroyed: seq<nat>,       // calls of `rd_kafka_message_destroy`, in order
    handedOut: seq<Bytes>)     // payloads of the reads that returned count 1, in order

  /** Messages are named by the order in which they were polled; `rkm` keeps its
      value after the message is destroyed, exactly like the pointer it models. */
  datatype State = State(
    rkm: Option<nat>,
    payload: Option<nat>,
    pollSem: bool,
    readSem: bool,
    running: bool,
    poller: PollerPc,
    readers: map<nat, ReaderPc>,
    owner: Place,      // history: who may touch the slot
    h: History)

  datatype Action =
    | StopThread
    | LeaveLoop
    | EnterLoop
    | TakePoll(ok: bool)
    | PollTimeout
    | PollMessage(m: Message)
    | GiveAfterTimeout(ok: bool)
    | InitPayload(ok: bool)
    | LoanPayload(ok: bool)
    | Notify
    | GiveRead(ok: bool)
    | CleanupDestroy
    | CleanupGive(ok: bool)
    | TakeRead(r: nat, ok: bool)
    | CopyPayload(r: nat, ok: bool, bytes: Bytes)
    | ReturnDestroy(r: nat)
    | ReturnGive(r: nat, ok: bool)

  const INITIAL := State(None, None, true, false, true, LoopHead, map[], PollFree,
                         History([], [], [], []))

  function Reader(s: State, r: nat): ReaderPc {
    if r in s.readers then s.readers[r] else Idle
  }

  predicate Live(s: State, id: nat) {
    id < |s.h.messages| && id !in s.h.destroyed
  }

  /** The bytes a copy of `payload` may yield: the message's own bytes while the
      message is alive, anything at all once its buffer has been freed. */
  predicate MayRead(s: State, bytes: Bytes) {
    match s.payload
    case None => bytes == []
    case Some(id) => Live(s, id) ==> s.h.messages[id].Good? && bytes == s.h.messages[id].payload
  }

  predicate Enabled(s: State, a: Action) {
    match a
    case StopThread => true
    case LeaveLoop => s.poller == LoopHead && !s.running
    case EnterLoop => s.poller == LoopHead && s.running
    case TakePoll(ok) => s.poller == Waiting && (ok ==> s.pollSem)
    case PollTimeout => s.poller == Polling
    case PollMessage(_) => s.poller == Polling
    case GiveAfterTimeout(_) => s.poller == TimedOut
    case InitPayload(_) => s.poller == Received
    case LoanPayload(_) => s.poller == Initialised
    case Notify => s.poller == Loaned
    case GiveRead(_) => s.poller == Notified
    case CleanupDestroy => s.poller == Cleaning
    case CleanupGive(_) => s.poller == Cleaned
    case TakeRead(r, ok) => Reader(s, r) == Idle && (ok ==> s.readSem)
    case CopyPayload(r, ok, bytes) => Reader(s, r) == Copying && (ok ==> MayRead(s, bytes))
    case ReturnDestroy(r) => Reader(s, r) == Holding
    case ReturnGive(r, _) => Reader(s, r) == Returning
  }

  /** Record the fate of the newest message. */
  function SetFate(s: State, f: Fate): State {
    if |s.h.fates| == 0 then s else s.(h := s.h.(fates := s.h.fates[|s.h.fates| - 1 := f]))
  }

  function Destroy(s: State): State {
    if s.rkm.None? then s else s.(h := s.h.(destroyed := s.h.destroyed + [s.rkm.value]))
  }

  predicate IsReaderAction(a: Action) {
    a.TakeRead? || a.CopyPayload? || a.ReturnDestroy? || a.ReturnGive?
  }

  function Apply(after: AfterCleanup, s: State, a: Action): State
    requires Enabled(s, a)
  {
    if IsReaderAction(a) then ApplyReader(s, a) else ApplyPoller(after, s, a)
  }

  /** One step of the polling thread (or the request to stop it). */
  function ApplyPoller(after: AfterCleanup, s: State, a: Action): State
    requires Enabled(s, a) && !IsReaderAction(a)
  {
    match a
    case StopThread => s.(running := false)
    case LeaveLoop => s.(poller := Exited)
    case EnterLoop => s.(poller := Waiting)
    case TakePoll(ok) =>
      if ok then s.(pollSem := false, poller := Polling, owner := WithPoller) else s.(poller := Exited)
    case PollTimeout => s.(rkm := None, poller := TimedOut)
    case PollMessage(m) =>
      s.(rkm := Some(|s.h.messages|), poller := if m.Good? then Received else Cleaning,
         h := s.h.(messages := s.h.messages + [m], fates := s.h.fates + [InFlight]))
    case GiveAfterTimeout(ok) =>
      if ok then s.(pollSem := true, poller := LoopHead, owner := PollFree)
      else s.(poller := Exited, owner := Lost)
    case InitPayload(ok) =>
      if ok then s.(payload := None, poller := Initialised) else s.(poller := Cleaning)
    case LoanPayload(ok) =>
      if ok then s.(payload := s.rkm, poller := Loaned) else s.(poller := Cleaning)
    case Notify => s.(poller := Notified)
    case GiveRead(ok) =>
      if ok then s.(readSem := true, poller := LoopHead, owner := ReadFree)
      else s.(poller := Exited, owner := Lost)
    case CleanupDestroy =>
      var f := if |s.h.messages| > 0 && s.h.messages[|s.h.messages| - 1].Good? then SetupFailed else Discarded;
      SetFate(Destroy(s), f).(poller := Cleaned)
    case CleanupGive(ok) =>
      if ok then
        s.(pollSem := true, poller := if after.LeaveThread? then Exited else LoopHead, owner := PollFree)
      else
        s.(poller := LoopHead, owner := Lost)
  }

  /** One step of `read` or `return_loan` on reader thread `a.r`. */
  function ApplyReader(s: State, a: Action): State
    requires Enabled(s, a) && IsReaderAction(a)
  {
    match a
    case TakeRead(r, ok) =>
      if ok then s.(readSem := false, readers := s.readers[r := Copying], owner := WithReader(r)) else s
    case CopyPayload(r, ok, bytes) =>
      if ok then
        var s1 := SetFate(s, HandedOut);
        s1.(h := s1.h.(handedOut := s1.h.handedOut + [bytes]), readers := s.readers[r := Holding])
      else
        SetFate(s, CopyFailed).(readers := s.readers[r := Idle], owner := Lost)
    case ReturnDestroy(r) => Destroy(s).(readers := s.readers[r := Returning])
    case ReturnGive(r, ok) =>
      if ok then s.(pollSem := true, readers := s.readers[r := Idle], owner := PollFree)
      else s.(readers := s.readers[r := Idle], owner := Lost)
  }

  /** The state after a run, or None when some action of it was not enabled. */
  function Exec(after: AfterCleanup, run: seq<Action>): Option<State> {
    if run == [] then Some(INITIAL)
    else
      var n := |run| - 1;
      match Exec(after, run[..n])
      case None => None
      case Some(s) => if Enabled(s, run[n]) then Some(Apply(after, s, run[n])) else None
  }

  // ----- what the theorems talk about ---------------------------------------

  predicate PollerWorking(s: State) {
    !s.poller.LoopHead? && !s.poller.Waiting? && !s.poller.Exited?
  }

  predicate ReaderActive(s: State, r: nat) {
    Reader(s, r) != Idle
  }

  /** At most one of {poll token free, poller working, read token free, a reader
      between `read` and the end of `return_loan`} holds, and at most one reader. */
  ghost predicate SlotExclusive(s: State) {
    && !(s.pollSem && (PollerWorking(s) || s.readSem))
    && !(PollerWorking(s) && s.readSem)
    && (forall r :: ReaderActive(s, r) ==> !s.pollSem && !s.readSem && !PollerWorking(s))
    && (forall r, q :: ReaderActive(s, r) && ReaderActive(s, q) ==> r == q)
  }

  function Ids(n: nat): (ids: seq<nat>)
    ensures |ids| == n && forall i :: 0 <= i < n ==> ids[i] == i
  {
    if n == 0 then [] else Ids(n - 1) + [n - 1]
  }

  /** Payloads of the messages with the given fate, in polling order. */
  function Select(ms: seq<Message>, fs: seq<Fate>): seq<Bytes>
    requires |ms| == |fs|
  {
    if ms == [] then []
    else
      var n := |ms| - 1;
      Select(ms[..n], fs[..n])
      + (if ms[n].Good? && fs[n] == HandedOut then [ms[n].payload] else [])
  }

  function GoodPayloads(ms: seq<Message>): seq<Bytes> {
    if ms == [] then []
    else
      var n := |ms| - 1;
      GoodPayloads(ms[..n]) + (if ms[n].Good? then [ms[n].payload] else [])
  }

  // ----- the invariant -------------------------------------------------------

  ghost predicate OwnerInv(s: State) {
    && (s.pollSem <==> s.owner == PollFree)
    && (s.readSem <==> s.owner == ReadFree)
    && (PollerWorking(s) <==> s.owner == WithPoller)
    && (forall r :: ReaderActive(s, r) <==> s.owner == WithReader(r))
  }

  /** The newest message has been polled but not yet destroyed. */
  predicate NewestAlive(s: State) {
    |s.h.destroyed| + 1 == |s.h.messages|
  }

  /** The slot refers to the newest message, which is alive. */
  predicate SlotHoldsNewest(s: State) {
    NewestAlive(s) && s.rkm == Some(|s.h.messages| - 1)
  }

  predicate ReadyToRead(s: State) {
    && SlotHoldsNewest(s)
    && s.payload == s.rkm
    && s.h.messages[|s.h.messages| - 1].Good?
  }

  /** The poller is between receiving a message and passing it on or destroying it. */
  predicate PollerHasMessage(s: State) {
    s.poller.Received? || s.poller.Initialised? || s.poller.Loaned? || s.poller.Notified? || s.poller.Cleaning?
  }

  /** The reader that owns the slot is at `pc`. */
  predicate OwnerAt(s: State, pc: ReaderPc) {
    s.owner.WithReader? && Reader(s, s.owner.r) == pc
  }

  predicate MemoryInv(s: State) {
    && |s.h.fates| == |s.h.messages|
    && |s.h.destroyed| <= |s.h.messages| <= |s.h.destroyed| + 1
    && s.h.destroyed == Ids(|s.h.destroyed|)
    && (s.pollSem || s.poller.Polling? || s.poller.TimedOut? || s.poller.Cleaned? ==> !NewestAlive(s))
    && (s.poller.TimedOut? ==> s.rkm.None?)
    && (PollerHasMessage(s) ==> SlotHoldsNewest(s))
    && (PollerHasMessage(s) && !s.poller.Cleaning? ==> s.h.messages[|s.h.messages| - 1].Good?)
    && (s.poller.Loaned? || s.poller.Notified? || s.readSem ==> ReadyToRead(s))
    && (OwnerAt(s, Copying) || OwnerAt(s, Holding) ==> ReadyToRead(s))
    && (OwnerAt(s, Returning) ==> !NewestAlive(s))
  }

  predicate FateFits(m: Message, f: Fate) {
    match f
    case InFlight => true
    case Discarded => m == ConsumerError
    case _ => m.Good?
  }

  function LastFate(s: State): Fate
    requires |s.h.fates| > 0
  {
    s.h.fates[|s.h.fates| - 1]
  }

  /** The payloads handed out are those of the messages so marked. */
  ghost predicate HistoryInv(h: History) {
    && |h.fates| == |h.messages|
    && h.handedOut == Select(h.messages, h.fates)
    && (forall i :: 0 <= i < |h.fates| ==> FateFits(h.messages[i], h.fates[i]))
  }

  predicate Settled(f: Fate) {
    f.Discarded? || f.SetupFailed? || f.HandedOut?
  }

  /** How far the newest message has come, given who owns the slot. */
  ghost predicate ProgressInv(s: State) {
    && |s.h.fates| == |s.h.messages|
    && (forall i :: 0 <= i < |s.h.fates| - 1 ==> Settled(s.h.fates[i]))
    && (|s.h.fates| > 0 && (s.pollSem || s.poller.Polling? || s.poller.TimedOut?) ==> Settled(LastFate(s)))
    && (PollerHasMessage(s) || s.readSem || OwnerAt(s, Copying) ==> |s.h.fates| > 0 && LastFate(s).InFlight?)
    && (OwnerAt(s, Holding) || OwnerAt(s, Returning) ==> |s.h.fates| > 0 && LastFate(s).HandedOut?)
    && (s.poller.Cleaned? ==> |s.h.fates| > 0 && Settled(LastFate(s)) && !LastFate(s).HandedOut?)
    && (|s.h.fates| > 0 && LastFate(s).CopyFailed? ==> s.owner == Lost)
  }

  /** With the code's own exit after a cleanup, nothing is polled after a message
      that was not handed out. */
  ghost predicate ExitInv(s: State) {
    && |s.h.fates| == |s.h.messages|
    && (forall i :: 0 <= i < |s.h.fates| - 1 ==> s.h.fates[i].HandedOut?)
    && (|s.h.fates| > 0 && Settled(LastFate(s)) && !LastFate(s).HandedOut? ==>
          s.poller.Cleaned? || s.poller.Exited? || s.owner == Lost)
  }

  ghost predicate Inv(after: AfterCleanup, s: State) {
    OwnerInv(s) && MemoryInv(s) && HistoryInv(s.h) && ProgressInv(s) && (after.LeaveThread? ==> ExitInv(s))
  }

  // ----- every step keeps the invariant --------------------------------------

  /** A reader that acts on the slot owns it, and then no other reader is active. */
  lemma ActorOwns(s: State, a: Action)
    requires OwnerInv(s) && Enabled(s, a) && IsReaderAction(a) && !a.TakeRead?
    ensures s.owner == WithReader(a.r)
  {
    assert ReaderActive(s, a.r);
  }

  lemma OwnerKeptByReader(s: State, a: Action)
    requires OwnerInv(s) && Enabled(s, a) && IsReaderAction(a)
    ensures OwnerInv(ApplyReader(s, a))
  {
    if !a.TakeRead? {
      ActorOwns(s, a);
    }
    var s' := ApplyReader(s, a);
    forall r ensures ReaderActive(s', r) <==> s'.owner == WithReader(r) {
      assert ReaderActive(s, r) <==> s.owner == WithReader(r);
    }
  }

  lemma OwnerKeptByPoller(after: AfterCleanup, s: State, a: Action)
    requires OwnerInv(s) && Enabled(s, a) && !IsReaderAction(a)
    ensures OwnerInv(ApplyPoller(after, s, a))
  {
    var s' := ApplyPoller(after, s, a);
    forall r ensures ReaderActive(s', r) <==> s'.owner == WithReader(r) {
      assert ReaderActive(s, r) <==> s.owner == WithReader(r);
    }
  }

  lemma MemoryKeptByMessage(after: AfterCleanup, s: State, a: Action)
    requires OwnerInv(s) && MemoryInv(s) && Enabled(s, a) && TouchesMessage(a)
    ensures MemoryInv(ApplyPoller(after, s, a))
  {
  }

  lemma MemoryKeptByPoller(after: AfterCleanup, s: State, a: Action)
    requires OwnerInv(s) && MemoryInv(s) && Enabled(s, a) && !IsReaderAction(a) && !TouchesMessage(a)
    ensures MemoryInv(ApplyPoller(after, s, a))
  {
  }

  lemma MemoryKeptByReader(s: State, a: Action)
    requires OwnerInv(s) && MemoryInv(s) && Enabled(s, a) && IsReaderAction(a)
    ensures MemoryInv(ApplyReader(s, a))
  {
    if !a.TakeRead? {
      ActorOwns(s, a);
    }
  }

  /** Steps of the poller that receive or destroy a message. */
  predicate TouchesMessage(a: Action) {
    a.PollMessage? || a.CleanupDestroy?
  }

  lemma ProgressKeptByMessage(after: AfterCleanup, s: State, a: Action)
    requires OwnerInv(s) && MemoryInv(s) && ProgressInv(s) && Enabled(s, a) && TouchesMessage(a)
    ensures ProgressInv(ApplyPoller(after, s, a))
  {
  }

  lemma ProgressKeptByPoller(after: AfterCleanup, s: State, a: Action)
    requires OwnerInv(s) && ProgressInv(s) && Enabled(s, a) && !IsReaderAction(a) && !TouchesMessage(a)
    ensures ProgressInv(ApplyPoller(after, s, a))
  {
  }

  lemma ProgressKeptByReader(s: State, a: Action)
    requires OwnerInv(s) && MemoryInv(s) && ProgressInv(s) && Enabled(s, a) && IsReaderAction(a)
    ensures ProgressInv(ApplyReader(s, a))
  {
    if !a.TakeRead? {
      ActorOwns(s, a);
    }
  }

  lemma HistoryPolled(h: History, m: Message)
    requires HistoryInv(h)
    ensures HistoryInv(h.(messages := h.messages + [m], fates := h.fates + [InFlight]))
  {
    var ms, fs := h.messages + [m], h.fates + [InFlight];
    assert ms[..|h.messages|] == h.messages && fs[..|h.fates|] == h.fates;
  }

  /** Deciding the fate of the newest message, with the payload handed out if any. */
  lemma HistorySettled(h: History, f: Fate, h': History)
    requires HistoryInv(h) && |h.messages| > 0 && h.fates[|h.fates| - 1].InFlight?
    requires FateFits(h.messages[|h.messages| - 1], f)
    requires h'.messages == h.messages && h'.fates == h.fates[|h.fates| - 1 := f]
    requires h'.handedOut == h.handedOut + if f.HandedOut? then [h.messages[|h.messages| - 1].payload] else []
    ensures HistoryInv(h')
  {
    var n := |h.messages| - 1;
    assert h'.fates[..n] == h.fates[..n];
  }

  lemma HistoryKeptByPoller(after: AfterCleanup, s: State, a: Action)
    requires MemoryInv(s) && HistoryInv(s.h) && ProgressInv(s) && Enabled(s, a) && !IsReaderAction(a)
    ensures HistoryInv(ApplyPoller(after, s, a).h)
  {
    var s' := ApplyPoller(after, s, a);
    if a.PollMessage? {
      HistoryPolled(s.h, a.m);
    } else if a.CleanupDestroy? {
      HistorySettled(s.h, LastFate(s'), s'.h);
    }
  }

  lemma HistoryKeptByReader(s: State, a: Action)
    requires OwnerInv(s) && MemoryInv(s) && HistoryInv(s.h) && ProgressInv(s)
    requires Enabled(s, a) && IsReaderAction(a)
    ensures HistoryInv(ApplyReader(s, a).h)
  {
    if a.CopyPayload? {
      ActorOwns(s, a);
      var s' := ApplyReader(s, a);
      HistorySettled(s.h, LastFate(s'), s'.h);
    }
  }

  lemma ExitKeptByReader(s: State, a: Action)
    requires OwnerInv(s) && ProgressInv(s) && ExitInv(s) && Enabled(s, a) && IsReaderAction(a)
    ensures ExitInv(ApplyReader(s, a))
  {
    if !a.TakeRead? {
      ActorOwns(s, a);
    }
  }

  lemma ExitKeptByPoller(s: State, a: Action)
    requires OwnerInv(s) && MemoryInv(s) && ProgressInv(s) && ExitInv(s) && Enabled(s, a) && !IsReaderAction(a)
    ensures ExitInv(ApplyPoller(LeaveThread, s, a))
  {
  }

  lemma StepKeepsInv(after: AfterCleanup, s: State, a: Action)
    requires Inv(after, s) && Enabled(s, a)
    ensures Inv(after, Apply(after, s, a))
  {
    if IsReaderAction(a) {
      OwnerKeptByReader(s, a);
      MemoryKeptByReader(s, a);
      ProgressKeptByReader(s, a);
      HistoryKeptByReader(s, a);
    } else {
      OwnerKeptByPoller(after, s, a);
      if TouchesMessage(a) {
        MemoryKeptByMessage(after, s, a);
        ProgressKeptByMessage(after, s, a);
      } else {
        MemoryKeptByPoller(after, s, a);
        ProgressKeptByPoller(after, s, a);
      }
      HistoryKeptByPoller(after, s, a);
    }
    if after.LeaveThread? {
      if IsReaderAction(a) {
        ExitKeptByReader(s, a);
      } else {
        ExitKeptByPoller(s, a);
      }
    }
  }

  // ----- theorems over every run ----------------------------------------------

  lemma {:induction false} RunKeepsInv(after: AfterCleanup, run: seq<Action>)
    requires Exec(after, run).Some?
    ensures Inv(after, Exec(after, run).value)
  {
    if run != [] {
      var n := |run| - 1;
      RunKeepsInv(after, run[..n]);
      var s := Exec(after, run[..n]).value;
      StepKeepsInv(after, s, run[n]);
    }
  }

  /** In every interleaving the slot has at most one user. */
  lemma RunSlotExclusive(after: AfterCleanup, run: seq<Action>)
    requires Exec(after, run).Some?
    ensures SlotExclusive(Exec(after, run).value)
  {
    RunKeepsInv(after, run);
    var s := Exec(after, run).value;
    forall r, q | ReaderActive(s, r) && ReaderActive(s, q) ensures r == q {
      assert s.owner == WithReader(r) && s.owner == WithReader(q);
    }
  }

  lemma ExecAppend(after: AfterCleanup, run: seq<Action>, a: Action)
    ensures Exec(after, run + [a]) ==
            match Exec(after, run)
            case None => None
            case Some(s) => if Enabled(s, a) then Some(Apply(after, s, a)) else None
  {
    assert (run + [a])[..|run|] == run;
  }

  /** While `read` is copying or its loan is outstanding, the slot refers to one live
      message, and no step of any other thread overwrites or destroys it. */
  lemma RunSlotStable(after: AfterCleanup, run: seq<Action>, a: Action, r: nat)
    requires Exec(after, run + [a]).Some?
    requires Exec(after, run).Some? && Reader(Exec(after, run).value, r) in {Copying, Holding}
    ensures var s, s' := Exec(after, run).value, Exec(after, run + [a]).value;
            && s.rkm.Some? && s.payload == s.rkm && Live(s, s.rkm.value)
            && s.h.messages[s.rkm.value].Good?
            && s'.rkm == s.rkm && s'.payload == s.payload
            && (a != ReturnDestroy(r) ==> Live(s', s'.rkm.value))
  {
    ExecAppend(after, run, a);
    RunKeepsInv(after, run);
    var s := Exec(after, run).value;
    assert ReaderActive(s, r);
    assert OwnerAt(s, Reader(s, r));
    if IsReaderAction(a) && !a.TakeRead? {
      ActorOwns(s, a);
    }
  }

  /** Messages are destroyed in polling order, each exactly once, and all but possibly
      the newest one have been. */
  lemma RunDestroysOnce(after: AfterCleanup, run: seq<Action>)
    requires Exec(after, run).Some?
    ensures var h := Exec(after, run).value.h;
            && h.destroyed == Ids(|h.destroyed|)
            && |h.messages| - 1 <= |h.destroyed| <= |h.messages|
  {
    RunKeepsInv(after, run);
  }

  lemma {:induction false} SelectIsSubsequence(ms: seq<Message>, fs: seq<Fate>)
    requires |ms| == |fs|
    ensures IsSubsequence(Select(ms, fs), GoodPayloads(ms))
  {
    if ms != [] {
      var n := |ms| - 1;
      SelectIsSubsequence(ms[..n], fs[..n]);
      var xs, ys := Select(ms[..n], fs[..n]), GoodPayloads(ms[..n]);
      assert xs + [] == xs && ys + [] == ys;
      if ms[n].Good? {
        SubsequenceAppend(xs, ys, ms[n].payload);
      }
    }
  }

  lemma {:induction false} SelectAll(ms: seq<Message>, fs: seq<Fate>)
    requires |ms| == |fs|
    requires forall i :: 0 <= i < |ms| ==> (ms[i].Good? <==> fs[i].HandedOut?)
    ensures Select(ms, fs) == GoodPayloads(ms)
  {
    if ms != [] {
      SelectAll(ms[..|ms| - 1], fs[..|ms| - 1]);
    }
  }

  lemma SelectAllButLast(ms: seq<Message>, fs: seq<Fate>)
    requires |ms| == |fs| > 0
    requires forall i :: 0 <= i < |ms| - 1 ==> (ms[i].Good? <==> fs[i].HandedOut?)
    ensures Select(ms, fs) == GoodPayloads(ms) || Select(ms, fs) == GoodPayloads(ms[..|ms| - 1])
    ensures Select(ms, fs) <= GoodPayloads(ms) && |GoodPayloads(ms)| <= |Select(ms, fs)| + 1
  {
    SelectAll(ms[..|ms| - 1], fs[..|ms| - 1]);
  }

  /** Successful reads hand out payloads of proper messages, in polling order and
      without repetition; if setting up `payload` never failed, they form a prefix of
      the proper messages that is at most one message behind. */
  lemma RunHandsOutInOrder(after: AfterCleanup, run: seq<Action>)
    requires Exec(after, run).Some?
    ensures var h := Exec(after, run).value.h;
            && IsSubsequence(h.handedOut, GoodPayloads(h.messages))
            && (SetupFailed !in h.fates ==>
                  && h.handedOut <= GoodPayloads(h.messages)
                  && |GoodPayloads(h.messages)| <= |h.handedOut| + 1)
  {
    RunKeepsInv(after, run);
    var h := Exec(after, run).value.h;
    SelectIsSubsequence(h.messages, h.fates);
    if SetupFailed !in h.fates && h.messages != [] {
      forall i | 0 <= i < |h.messages| - 1 ensures h.messages[i].Good? <==> h.fates[i].HandedOut? {
        assert h.fates[i] in h.fates;
        assert FateFits(h.messages[i], h.fates[i]);
      }
      SelectAllButLast(h.messages, h.fates);
    }
  }

  /** The code as it stands (the thread leaves after a cleanup): every message except
      possibly the newest is proper and was handed out, so a consumer error, or a
      failure to set up `payload`, is the last thing ever polled. */
  lemma RunOfTheCode(run: seq<Action>)
    requires Exec(LeaveThread, run).Some?
    ensures var h := Exec(LeaveThread, run).value.h;
            && (forall i :: 0 <= i < |h.messages| - 1 ==> h.messages[i].Good?)
            && h.handedOut <= GoodPayloads(h.messages)
            && |h.messages| <= |h.handedOut| + 1
  {
    RunKeepsInv(LeaveThread, run);
    AllButLastHandedOut(Exec(LeaveThread, run).value.h);
  }

  lemma AllButLastHandedOut(h: History)
    requires HistoryInv(h) && forall i :: 0 <= i < |h.fates| - 1 ==> h.fates[i].HandedOut?
    ensures forall i :: 0 <= i < |h.messages| - 1 ==> h.messages[i].Good?
    ensures h.handedOut <= GoodPayloads(h.messages)
    ensures |h.messages| <= |h.handedOut| + 1
  {
    forall i | 0 <= i < |h.messages| - 1 ensures h.messages[i].Good? {
      assert FateFits(h.messages[i], h.fates[i]);
    }
    if h.messages != [] {
      SelectAllButLast(h.messages, h.fates);
      GoodCount(h.messages[..|h.messages| - 1]);
    }
  }

  lemma {:induction false} GoodCount(ms: seq<Message>)
    requires forall i :: 0 <= i < |ms| ==> ms[i].Good?
    ensures |GoodPayloads(ms)| == |ms|
  {
    if ms != [] {
      GoodCount(ms[..|ms| - 1]);
    }
  }

  /** A step that neither passes the slot on nor keeps it: a failed give, or a failed copy. */
  predicate LosesSlot(a: Action) {
    || (a.GiveAfterTimeout? && !a.ok) || (a.GiveRead? && !a.ok) || (a.CleanupGive? && !a.ok)
    || (a.CopyPayload? && !a.ok) || (a.ReturnGive? && !a.ok)
  }

  lemma StepLosesSlot(after: AfterCleanup, s: State, a: Action)
    requires OwnerInv(s) && Enabled(s, a)
    ensures Apply(after, s, a).owner == Lost <==> s.owner == Lost || LosesSlot(a)
  {
    if IsReaderAction(a) && !a.TakeRead? {
      ActorOwns(s, a);
    }
  }

  lemma {:induction false} RunLosesOwner(after: AfterCleanup, run: seq<Action>)
    requires Exec(after, run).Some?
    ensures Exec(after, run).value.owner == Lost <==> Occurs(LosesSlot, run)
  {
    if run != [] {
      var n := |run| - 1;
      RunLosesOwner(after, run[..n]);
      RunKeepsInv(after, run[..n]);
      var s := Exec(after, run[..n]).value;
      StepLosesSlot(after, s, run[n]);
      OccursExtends(LosesSlot, run);
    }
  }

  /** Both semaphores are taken and no thread will give either. */
  ghost predicate SlotLost(s: State) {
    !s.pollSem && !s.readSem && !PollerWorking(s) && forall r :: !ReaderActive(s, r)
  }

  lemma LostIsUnowned(s: State)
    requires OwnerInv(s)
    ensures SlotLost(s) <==> s.owner == Lost
  {
    if s.owner.WithReader? {
      assert ReaderActive(s, s.owner.r);
    }
  }

  /** A token is free or some thread works on the slot, unless a give or a copy failed. */
  lemma RunSlotConserved(after: AfterCleanup, run: seq<Action>)
    requires Exec(after, run).Some?
    ensures SlotLost(Exec(after, run).value) <==> Occurs(LosesSlot, run)
  {
    RunLosesOwner(after, run);
    RunKeepsInv(after, run);
    LostIsUnowned(Exec(after, run).value);
  }

  /** Some action of the run is of this kind. */
  ghost predicate Occurs(p: Action -> bool, run: seq<Action>) {
    exists i :: 0 <= i < |run| && p(run[i])
  }

  lemma OccursExtends(p: Action -> bool, run: seq<Action>)
    requires run != []
    ensures Occurs(p, run) <==> Occurs(p, run[..|run| - 1]) || p(run[|run| - 1])
  {
    var n := |run| - 1;
    forall i | 0 <= i < n ensures run[..n][i] == run[i] {
    }
    if i :| 0 <= i < |run| && p(run[i]) {
      assert i == n || p(run[..n][i]);
    }
  }

  lemma OccursBefore(p: Action -> bool, run: seq<Action>, more: seq<Action>)
    requires Occurs(p, run)
    ensures Occurs(p, run + more)
  {
    var i :| 0 <= i < |run| && p(run[i]);
    assert p((run + more)[i]);
  }

  lemma LostSlotStays(after: AfterCleanup, s: State, a: Action)
    requires OwnerInv(s) && Enabled(s, a) && s.owner == Lost
    ensures Apply(after, s, a).h == s.h
  {
    if IsReaderAction(a) && !a.TakeRead? {
      ActorOwns(s, a);
    }
  }

  lemma {:induction false} LostSlotStopsEverything(after: AfterCleanup, run: seq<Action>, more: seq<Action>)
    requires Exec(after, run + more).Some?
    requires Occurs(LosesSlot, run)
    ensures Exec(after, run).Some?
    ensures Exec(after, run + more).value.h == Exec(after, run).value.h
    decreases |more|
  {
    if more == [] {
      assert run + more == run;
    } else {
      var n := |more| - 1;
      var before := run + more[..n];
      assert run + more == before + [more[n]];
      ExecAppend(after, before, more[n]);
      LostSlotStopsEverything(after, run, more[..n]);
      RunKeepsInv(after, before);
      OccursBefore(LosesSlot, run, more[..n]);
      RunLosesOwner(after, before);
      LostSlotStays(after, Exec(after, before).value, more[n]);
    }
  }

  // ----- leaving the loop --------------------------------------------------------------------------

  /** The steps that end the polling thread: it was told to stop, a semaphore call failed or, as
      the code is written, an error was cleaned up successfully. */
  predicate Leaves(after: AfterCleanup, a: Action) {
    || a.LeaveLoop? || (a.TakePoll? && !a.ok) || (a.GiveAfterTimeout? && !a.ok) || (a.GiveRead? && !a.ok)
    || (after.LeaveThread? && a.CleanupGive? && a.ok)
  }

  lemma ReaderLeavesPollerAlone(s: State, a: Action)
    requires Enabled(s, a) && IsReaderAction(a)
    ensures var s' := ApplyReader(s, a); s'.poller == s.poller && s'.h.messages == s.h.messages
  {
  }

  lemma PollerStepLeaves(after: AfterCleanup, s: State, a: Action)
    requires Enabled(s, a) && !IsReaderAction(a)
    ensures ApplyPoller(after, s, a).poller.Exited? <==> s.poller.Exited? || Leaves(after, a)
    ensures s.poller.Exited? ==> a.StopThread?
  {
  }

  lemma StepLeaves(after: AfterCleanup, s: State, a: Action, s': State)
    requires Enabled(s, a) && s' == Apply(after, s, a)
    ensures s'.poller.Exited? <==> s.poller.Exited? || Leaves(after, a)
    ensures s.poller.Exited? ==> s'.h.messages == s.h.messages
  {
    if IsReaderAction(a) {
      ReaderLeavesPollerAlone(s, a);
    } else {
      PollerStepLeaves(after, s, a);
    }
  }

  /** The poller has left its loop exactly when such a step has occurred. */
  lemma {:induction false} RunLeaves(after: AfterCleanup, run: seq<Action>)
    requires Exec(after, run).Some?
    ensures Exec(after, run).value.poller.Exited? <==> Occurs(a => Leaves(after, a), run)
  {
    if run != [] {
      var n := |run| - 1;
      RunLeaves(after, run[..n]);
      var s := Exec(after, run[..n]).value;
      StepLeaves(after, s, run[n], Apply(after, s, run[n]));
      OccursExtends(a => Leaves(after, a), run);
    }
  }

  /** And from then on no message is polled. */
  lemma {:induction false} NothingPolledAfterLeaving(after: AfterCleanup, run: seq<Action>, more: seq<Action>)
    requires Exec(after, run + more).Some? && Occurs(a => Leaves(after, a), run)
    ensures Exec(after, run).Some?
    ensures Exec(after, run + more).value.h.messages == Exec(after, run).value.h.messages
    decreases |more|
  {
    if more == [] {
      assert run + more == run;
    } else {
      var n := |more| - 1;
      var before := run + more[..n];
      assert run + more == before + [more[n]];
      ExecAppend(after, before, more[n]);
      NothingPolledAfterLeaving(after, run, more[..n]);
      OccursBefore(a => Leaves(after, a), run, more[..n]);
      RunLeaves(after, before);
      var s := Exec(after, before).value;
      StepLeaves(after, s, more[n], Apply(after, s, more[n]));
    }
  }

  lemma ErrorPolled(after: AfterCleanup, run: seq<Action>)
    requires Exec(after, run).Some? && Exec(after, run).value.poller == Polling
    ensures Exec(after, run + [PollMessage(ConsumerError)]).Some?
    ensures Exec(after, run + [PollMessage(ConsumerError)]).value.poller == Cleaning
    ensures Exec(after, run + [PollMessage(ConsumerError)]).value.running == Exec(after, run).value.running
  {
    ExecAppend(after, run, PollMessage(ConsumerError));
  }

  lemma ErrorDestroyed(after: AfterCleanup, run: seq<Action>)
    requires Exec(after, run).Some? && Exec(after, run).value.poller == Cleaning
    ensures Exec(after, run + [CleanupDestroy]).Some? && Exec(after, run + [CleanupDestroy]).value.poller == Cleaned
    ensures Exec(after, run + [CleanupDestroy]).value.running == Exec(after, run).value.running
  {
    ExecAppend(after, run, CleanupDestroy);
  }

  lemma ErrorCleanedUp(after: AfterCleanup, run: seq<Action>)
    requires Exec(after, run).Some? && Exec(after, run).value.poller == Cleaned
    ensures Exec(after, run + [CleanupGive(true)]).Some?
    ensures Exec(after, run + [CleanupGive(true)]).value.poller == if after.LeaveThread? then Exited else LoopHead
  {
    ExecAppend(after, run, CleanupGive(true));
  }

  /** Whenever the poller polls, one consumer error, cleaned up without any failure, ends the
      code's polling thread, and nothing is ever polled again; a thread that went on as the
      comment suggests would be back at its loop. */
  lemma ConsumerErrorEndsPolling(after: AfterCleanup, run: seq<Action>, more: seq<Action>)
    requires Exec(after, run).Some? && Exec(after, run).value.poller == Polling
    ensures var run' := run + [PollMessage(ConsumerError)] + [CleanupDestroy] + [CleanupGive(true)];
            && Exec(after, run').Some?
            && Exec(after, run').value.poller == (if after.LeaveThread? then Exited else LoopHead)
            && (after.LeaveThread? && Exec(after, run' + more).Some? ==>
                  Exec(after, run' + more).value.h.messages == Exec(after, run').value.h.messages)
  {
    ErrorPolled(after, run);
    ErrorDestroyed(after, run + [PollMessage(ConsumerError)]);
    ErrorCleanedUp(after, run + [PollMessage(ConsumerError)] + [CleanupDestroy]);
    var run' := run + [PollMessage(ConsumerError)] + [CleanupDestroy] + [CleanupGive(true)];
    if after.LeaveThread? && Exec(after, run' + more).Some? {
      RunLeaves(after, run');
      NothingPolledAfterLeaving(after, run', more);
    }
  }

  /** The poller's first steps. */
  lemma FirstPoll(after: AfterCleanup, run: seq<Action>)
    requires run == [EnterLoop, TakePoll(true)]
    ensures Exec(after, run).Some? && Exec(after, run).value.poller == Polling && Exec(after, run).value.running
  {
    ExecAppend(after, [], EnterLoop);
    ExecAppend(after, [] + [EnterLoop], TakePoll(true));
    assert [] + [EnterLoop] + [TakePoll(true)] == run;
  }

  /** The shortest such run. */
  lemma FirstMessageIsAnError(after: AfterCleanup)
    ensures var run := [EnterLoop, TakePoll(true), PollMessage(ConsumerError), CleanupDestroy, CleanupGive(true)];
            && !Occurs(Fails, run) && Exec(after, run).Some?
            && (Exec(after, run).value.poller.Exited? <==> after.LeaveThread?)
  {
    var run := [EnterLoop, TakePoll(true)];
    FirstPoll(after, run);
    ConsumerErrorEndsPolling(after, run, []);
    assert run + [PollMessage(ConsumerError)] + [CleanupDestroy] + [CleanupGive(true)] ==
           [EnterLoop, TakePoll(true), PollMessage(ConsumerError), CleanupDestroy, CleanupGive(true)];
  }

  // ----- no deadlock ---------------------------------------------------------------------------------

  /** A call of a library function that reports an error or a timeout. */
  predicate Fails(a: Action) {
    match a
    case TakePoll(ok) => !ok
    case GiveAfterTimeout(ok) => !ok
    case InitPayload(ok) => !ok
    case LoanPayload(ok) => !ok
    case GiveRead(ok) => !ok
    case CleanupGive(ok) => !ok
    case TakeRead(_, ok) => !ok
    case CopyPayload(_, ok, _) => !ok
    case ReturnGive(_, ok) => !ok
    case _ => false
  }

  ghost predicate CanProceed(s: State) {
    exists a :: Enabled(s, a) && !Fails(a) && !a.StopThread?
  }

  /** The slot is lost while the poller waits for it or has left, or the poller has left with the
      slot free. */
  ghost predicate Stuck(s: State) {
    (SlotLost(s) && (s.poller.Waiting? || s.poller.Exited?)) || (s.pollSem && s.poller.Exited?)
  }

  /** What the poller does next when nothing fails. */
  function PollerNext(s: State): Action
    requires !s.poller.Exited?
  {
    match s.poller
    case LoopHead => if s.running then EnterLoop else LeaveLoop
    case Waiting => TakePoll(true)
    case Polling => PollTimeout
    case TimedOut => GiveAfterTimeout(true)
    case Received => InitPayload(true)
    case Initialised => LoanPayload(true)
    case Loaned => Notify
    case Notified => GiveRead(true)
    case Cleaning => CleanupDestroy
    case Cleaned => CleanupGive(true)
  }

  /** What the reader that owns the slot does next. */
  function ReaderNext(s: State, r: nat): Action
    requires ReaderActive(s, r)
  {
    match Reader(s, r)
    case Copying =>
      CopyPayload(r, true, if s.payload.Some? && s.payload.value < |s.h.messages| && s.h.messages[s.payload.value].Good?
                           then s.h.messages[s.payload.value].payload else [])
    case Holding => ReturnDestroy(r)
    case Returning => ReturnGive(r, true)
  }

  lemma Proceeds(s: State)
    requires OwnerInv(s) && MemoryInv(s) && !Stuck(s)
    ensures CanProceed(s)
  {
    if s.readSem {
      assert !ReaderActive(s, 0);
      assert Enabled(s, TakeRead(0, true));
    } else if r :| ReaderActive(s, r) {
      assert s.owner == WithReader(r);
      assert Enabled(s, ReaderNext(s, r));
    } else {
      assert Enabled(s, PollerNext(s));
    }
  }

  lemma StuckStays(s: State, a: Action)
    requires OwnerInv(s) && Stuck(s) && Enabled(s, a) && !a.StopThread?
    ensures Fails(a)
  {
    if IsReaderAction(a) && !a.TakeRead? {
      ActorOwns(s, a);
    }
  }

  /** After every run some thread can take a step that does not fail, unless a failure has lost
      the slot or the poller has left its loop with the slot free. */
  lemma NoDeadlock(after: AfterCleanup, run: seq<Action>)
    requires Exec(after, run).Some?
    ensures CanProceed(Exec(after, run).value) <==> !Stuck(Exec(after, run).value)
  {
    RunKeepsInv(after, run);
    var s := Exec(after, run).value;
    if !Stuck(s) {
      Proceeds(s);
    } else if CanProceed(s) {
      var a :| Enabled(s, a) && !Fails(a) && !a.StopThread?;
      StuckStays(s, a);
    }
  }

  // ----- stopping ------------------------------------------------------------------------------------

  /** The poller waits for a semaphore that nobody will give. */
  ghost predicate Stranded(s: State) {
    SlotLost(s) && s.poller.Waiting?
  }

  lemma StrandedStep(after: AfterCleanup, s: State, a: Action, s': State)
    requires OwnerInv(s) && Stranded(s) && Enabled(s, a) && !Fails(a) && s' == Apply(after, s, a)
    ensures a.StopThread? && Stranded(s')
  {
    if !a.StopThread? {
      StuckStays(s, a);
    }
    forall q ensures !ReaderActive(s', q) {
      assert !ReaderActive(s, q);
    }
  }

  lemma StrandedNext(after: AfterCleanup, run: seq<Action>, s: State, a: Action, s': State)
    requires Exec(after, run) == Some(s) && Stranded(s) && !Fails(a) && Exec(after, run + [a]) == Some(s')
    ensures a.StopThread? && Stranded(s')
  {
    RunKeepsInv(after, run);
    ExecAppend(after, run, a);
    StrandedStep(after, s, a, s');
  }

  /** Asking the thread to stop does not release it: whatever happens, short of a failing wait, it
      stays where it is. */
  lemma {:induction false} StoppingDoesNotRelease(after: AfterCleanup, run: seq<Action>, s: State, more: seq<Action>,
                                                  s': State)
    requires Exec(after, run) == Some(s) && Stranded(s)
    requires Exec(after, run + more) == Some(s') && !Occurs(Fails, more)
    ensures Stranded(s')
    ensures forall i :: 0 <= i < |more| ==> more[i].StopThread?
    decreases |more|
  {
    if more == [] {
      assert run + more == run;
    } else {
      var a, rest := more[0], more[1..];
      assert run + more == run + [a] + rest;
      ExecPrefix(after, run + [a], rest);
      NoneOccurs(Fails, a, rest, more);
      var s1 := Exec(after, run + [a]).value;
      StrandedNext(after, run, s, a, s1);
      StoppingDoesNotRelease(after, run + [a], s1, rest, s');
      assert more == [a] + rest;
    }
  }

  lemma NoneOccurs(p: Action -> bool, a: Action, rest: seq<Action>, all: seq<Action>)
    requires all == [a] + rest && !Occurs(p, all)
    ensures !p(a) && !Occurs(p, rest)
  {
    assert !p(all[0]);
    forall i | 0 <= i < |rest| ensures !p(rest[i]) {
      assert !p(all[i + 1]);
    }
  }

  lemma {:induction false} ExecPrefix(after: AfterCleanup, run: seq<Action>, more: seq<Action>)
    requires Exec(after, run + more).Some?
    ensures Exec(after, run).Some?
    decreases |more|
  {
    if more == [] {
      assert run + more == run;
    } else {
      var n := |more| - 1;
      ExecAppend(after, run + more[..n], more[n]);
      assert run + more == run + more[..n] + [more[n]];
      ExecPrefix(after, run, more[..n]);
    }
  }

  /** Whenever the poller cleans up and its give fails, it goes on to wait for good. */
  lemma FailedGiveStrands(after: AfterCleanup, run: seq<Action>)
    requires Exec(after, run).Some? && Exec(after, run).value.poller == Cleaned && Exec(after, run).value.running
    ensures Exec(after, run + [CleanupGive(false)] + [EnterLoop]).Some?
    ensures Stranded(Exec(after, run + [CleanupGive(false)] + [EnterLoop]).value)
  {
    var run1 := run + [CleanupGive(false)];
    ExecAppend(after, run, CleanupGive(false));
    var s := Exec(after, run1).value;
    assert s.poller == LoopHead && s.running;
    EnteringStrands(after, run1, s, |run|);
  }

  lemma EnteringStrands(after: AfterCleanup, run: seq<Action>, s: State, i: nat)
    requires Exec(after, run) == Some(s) && s.poller == LoopHead && s.running && i < |run| && LosesSlot(run[i])
    ensures Exec(after, run + [EnterLoop]).Some? && Stranded(Exec(after, run + [EnterLoop]).value)
  {
    ExecAppend(after, run, EnterLoop);
    assert LosesSlot((run + [EnterLoop])[i]);
    RunSlotConserved(after, run + [EnterLoop]);
  }

  /** The shortest such run. */
  lemma PollerCanBeStranded(after: AfterCleanup)
    ensures var run := [EnterLoop, TakePoll(true)] + [PollMessage(ConsumerError)] + [CleanupDestroy]
                       + [CleanupGive(false)] + [EnterLoop];
            Exec(after, run).Some? && Stranded(Exec(after, run).value)
  {
    var run := [EnterLoop, TakePoll(true)];
    FirstPoll(after, run);
    ErrorPolled(after, run);
    ErrorDestroyed(after, run + [PollMessage(ConsumerError)]);
    FailedGiveStrands(after, run + [PollMessage(ConsumerError)] + [CleanupDestroy]);
  }

  /** How many messages a thread that was told to stop may still poll. */
  function PollsLeft(s: State): nat {
    if s.poller.Waiting? || s.poller.Polling? then 1 else 0
  }

  function Polls(run: seq<Action>): nat {
    if run == [] then 0 else (if run[0].PollMessage? then 1 else 0) + Polls(run[1..])
  }

  lemma StoppedReaderStep(s: State, a: Action)
    requires Enabled(s, a) && IsReaderAction(a)
    ensures var s' := ApplyReader(s, a); s'.running == s.running && s'.poller == s.poller
  {
  }

  lemma StoppedPollerStep(after: AfterCleanup, s: State, a: Action)
    requires Enabled(s, a) && !IsReaderAction(a) && (!s.running || a.StopThread?)
    ensures var s' := ApplyPoller(after, s, a);
            !s'.running && !a.EnterLoop? && PollsLeft(s') + (if a.PollMessage? then 1 else 0) <= PollsLeft(s)
  {
  }

  /** Once the thread was told to stop, it stays told; its loop is not entered again, and each
      message uses up what it may still poll. */
  lemma StoppedStep(after: AfterCleanup, s: State, a: Action, s': State)
    requires Enabled(s, a) && (!s.running || a.StopThread?) && s' == Apply(after, s, a)
    ensures !s'.running && !a.EnterLoop?
    ensures PollsLeft(s') + (if a.PollMessage? then 1 else 0) <= PollsLeft(s)
  {
    if IsReaderAction(a) {
      StoppedReaderStep(s, a);
    } else {
      StoppedPollerStep(after, s, a);
    }
  }

  lemma StoppedNext(after: AfterCleanup, run: seq<Action>, s: State, a: Action, s': State)
    requires Exec(after, run) == Some(s) && !s.running && Exec(after, run + [a]) == Some(s')
    ensures !s'.running && !a.EnterLoop?
    ensures PollsLeft(s') + (if a.PollMessage? then 1 else 0) <= PollsLeft(s)
  {
    ExecAppend(after, run, a);
    StoppedStep(after, s, a, s');
  }

  lemma {:induction false} StoppedRun(after: AfterCleanup, run: seq<Action>, s: State, more: seq<Action>, s': State)
    requires Exec(after, run) == Some(s) && !s.running && Exec(after, run + more) == Some(s')
    ensures !s'.running && Polls(more) <= PollsLeft(s)
    ensures forall i :: 0 <= i < |more| ==> !more[i].EnterLoop?
    decreases |more|
  {
    if more == [] {
      assert run + more == run;
    } else {
      var a, rest := more[0], more[1..];
      assert run + more == run + [a] + rest;
      ExecPrefix(after, run + [a], rest);
      var s1 := Exec(after, run + [a]).value;
      StoppedNext(after, run, s, a, s1);
      StoppedRun(after, run + [a], s1, rest, s');
      assert more == [a] + rest;
    }
  }

  lemma ExecSome(after: AfterCleanup, run: seq<Action>, a: Action)
    requires Exec(after, run + [a]).Some?
    ensures Exec(after, run).Some?
  {
    ExecAppend(after, run, a);
  }

  /** A stopped thread at its loop can only leave it. */
  lemma StoppedThreadLeaves(s: State, a: Action)
    requires !s.running && s.poller == LoopHead
    ensures Enabled(s, LeaveLoop)
    ensures Enabled(s, a) && !IsReaderAction(a) && !a.StopThread? ==> a == LeaveLoop
  {
  }

  /** A request to stop, at any time: the loop is not entered again, at most one further message is
      polled, and whenever the thread is back at its loop, leaving is all it can do. */
  lemma StopEndsPolling(after: AfterCleanup, run: seq<Action>, more: seq<Action>)
    requires Exec(after, run + [StopThread] + more).Some?
    ensures Polls(more) <= 1 && forall i :: 0 <= i < |more| ==> !more[i].EnterLoop?
    ensures var s := Exec(after, run + [StopThread] + more).value;
            s.poller == LoopHead ==>
              Enabled(s, LeaveLoop) &&
              forall a :: Enabled(s, a) && !IsReaderAction(a) && !a.StopThread? ==> a == LeaveLoop
  {
    var stopped := run + [StopThread];
    ExecPrefix(after, stopped, more);
    ExecSome(after, run, StopThread);
    ExecAppend(after, run, StopThread);
    var s0, s1 := Exec(after, run).value, Exec(after, stopped).value;
    StoppedStep(after, s0, StopThread, s1);
    var s := Exec(after, stopped + more).value;
    StoppedRun(after, stopped, s1, more, s);
    if s.poller == LoopHead {
      forall a ensures Enabled(s, a) && !IsReaderAction(a) && !a.StopThread? ==> a == LeaveLoop {
        StoppedThreadLeaves(s, a);
      }
    }
  }

  /** Told before it has started, the thread polls nothing at all. */
  lemma StoppedAtOnce(after: AfterCleanup, more: seq<Action>)
    requires Exec(after, [StopThread] + more).Some?
    ensures Polls(more) == 0
  {
    ExecPrefix(after, [StopThread], more);
    ExecAppend(after, [], StopThread);
    assert [] + [StopThread] == [StopThread];
    var s1 := Exec(after, [StopThread]).value;
    StoppedStep(after, INITIAL, StopThread, s1);
    StoppedRun(after, [StopThread], s1, more, Exec(after, [StopThread] + more).value);
  }

  // ----- the history is that of the actions ------------------------------------------------------------

  function PolledBy(a: Action): seq<Message> {
    if a.PollMessage? then [a.m] else []
  }

  function HandedOutBy(a: Action): seq<Bytes> {
    if a.CopyPayload? && a.ok then [a.bytes] else []
  }

  predicate Destroys(a: Action) {
    a.CleanupDestroy? || a.ReturnDestroy?
  }

  lemma ReaderStepRecorded(s: State, a: Action)
    requires Enabled(s, a) && IsReaderAction(a)
    ensures ApplyReader(s, a).h.messages == s.h.messages
    ensures ApplyReader(s, a).h.handedOut == s.h.handedOut + HandedOutBy(a)
  {
  }

  lemma PollerStepRecorded(after: AfterCleanup, s: State, a: Action, s': State)
    requires Enabled(s, a) && !IsReaderAction(a) && s' == ApplyPoller(after, s, a)
    ensures s'.h.messages == s.h.messages + PolledBy(a)
    ensures s'.h.handedOut == s.h.handedOut
  {
    if !a.PollMessage? {
      NothingPolled(after, s, a, s');
    }
  }

  lemma NothingPolled(after: AfterCleanup, s: State, a: Action, s': State)
    requires Enabled(s, a) && !IsReaderAction(a) && !a.PollMessage? && s' == ApplyPoller(after, s, a)
    ensures s'.h.messages == s.h.messages && s'.h.handedOut == s.h.handedOut
  {
  }

  lemma StepRecorded(after: AfterCleanup, s: State, a: Action, s': State)
    requires Enabled(s, a) && s' == Apply(after, s, a)
    ensures s'.h.messages == s.h.messages + PolledBy(a)
    ensures s'.h.handedOut == s.h.handedOut + HandedOutBy(a)
  {
    if IsReaderAction(a) {
      ReaderStepRecorded(s, a);
    } else {
      PollerStepRecorded(after, s, a, s');
    }
  }

  /** Messages polled and payloads handed out are those of the run's actions, in order. */
  lemma {:induction false} RunRecorded(after: AfterCleanup, run: seq<Action>, s: State)
    requires Exec(after, run) == Some(s)
    ensures s.h.messages == FlatMap(PolledBy, run)
    ensures s.h.handedOut == FlatMap(HandedOutBy, run)
    decreases |run|
  {
    if run != [] {
      var n := |run| - 1;
      var s0 := Exec(after, run[..n]).value;
      RunRecorded(after, run[..n], s0);
      StepRecorded(after, s0, run[n], s);
    }
  }

  lemma StepDestroysOne(after: AfterCleanup, s: State, a: Action, s': State)
    requires Inv(after, s) && Enabled(s, a) && s' == Apply(after, s, a)
    ensures |s'.h.destroyed| == |s.h.destroyed| + if Destroys(a) then 1 else 0
  {
    if a.ReturnDestroy? {
      ActorOwns(s, a);
    }
  }

  function Destructions(run: seq<Action>): nat {
    if run == [] then 0 else Destructions(run[..|run| - 1]) + if Destroys(run[|run| - 1]) then 1 else 0
  }

  /** Every step that destroys a message destroys one. */
  lemma {:induction false} RunDestructions(after: AfterCleanup, run: seq<Action>, s: State)
    requires Exec(after, run) == Some(s)
    ensures |s.h.destroyed| == Destructions(run)
    decreases |run|
  {
    if run != [] {
      var n := |run| - 1;
      var s0 := Exec(after, run[..n]).value;
      RunDestructions(after, run[..n], s0);
      RunKeepsInv(after, run[..n]);
      StepDestroysOne(after, s0, run[n], s);
    }
  }

  /** A message whose buffer could not be set up is destroyed and not handed out. */
  lemma FailedSetupDestroys(after: AfterCleanup, run: seq<Action>, a: Action, s: State)
    requires Exec(after, run + [a]) == Some(s)
    requires (a.InitPayload? || a.LoanPayload?) && !a.ok
    ensures s.poller == Cleaning
    ensures forall b :: Enabled(s, b) && !IsReaderAction(b) && !b.StopThread? ==> b == CleanupDestroy
  {
    ExecSome(after, run, a);
    ExecLast(after, run, a, Exec(after, run).value, s);
    SetupFailureCleans(after, Exec(after, run).value, a, s);
    forall b | Enabled(s, b) && !IsReaderAction(b) && !b.StopThread? ensures b == CleanupDestroy {
      OnlyCleanup(s, b);
    }
  }

  lemma ExecLast(after: AfterCleanup, run: seq<Action>, a: Action, s: State, s': State)
    requires Exec(after, run) == Some(s) && Exec(after, run + [a]) == Some(s')
    ensures Enabled(s, a) && s' == Apply(after, s, a)
  {
    ExecAppend(after, run, a);
  }

  lemma SetupFailureCleans(after: AfterCleanup, s: State, a: Action, s': State)
    requires Enabled(s, a) && s' == Apply(after, s, a) && (a.InitPayload? || a.LoanPayload?) && !a.ok
    ensures s'.poller == Cleaning
  {
  }

  lemma OnlyCleanup(s: State, b: Action)
    requires s.poller == Cleaning && Enabled(s, b) && !IsReaderAction(b) && !b.StopThread?
    ensures b == CleanupDestroy
  {
  }

  // ----- a message is dropped only for a reason -----------------------------------------------------------

  predicate SetupFails(a: Action) {
    (a.InitPayload? || a.LoanPayload?) && !a.ok
  }

  /** A proper message is being dropped, or was. */
  ghost predicate DropsMessage(s: State) {
    || SetupFailed in s.h.fates
    || (s.poller.Cleaning? && |s.h.messages| > 0 && s.h.messages[|s.h.messages| - 1].Good?)
  }

  lemma FateSet(s: State, f: Fate)
    requires |s.h.fates| > 0 && LastFate(s).InFlight?
    ensures SetupFailed in SetFate(s, f).h.fates <==> SetupFailed in s.h.fates || f == SetupFailed
  {
    var fs, n := s.h.fates, |s.h.fates| - 1;
    var fs' := SetFate(s, f).h.fates;
    assert fs' == fs[..n] + [f] && fs == fs[..n] + [InFlight];
  }

  lemma StepDrops(after: AfterCleanup, s: State, a: Action, s': State)
    requires Inv(after, s) && Enabled(s, a) && s' == Apply(after, s, a)
    ensures DropsMessage(s') <==> DropsMessage(s) || SetupFails(a)
  {
    if IsReaderAction(a) {
      ReaderStepDrops(s, a, s');
    } else {
      PollerStepDrops(after, s, a, s');
    }
  }

  lemma ReaderStepDrops(s: State, a: Action, s': State)
    requires OwnerInv(s) && ProgressInv(s) && Enabled(s, a) && IsReaderAction(a) && s' == ApplyReader(s, a)
    ensures DropsMessage(s') <==> DropsMessage(s)
  {
    if a.CopyPayload? {
      ActorOwns(s, a);
      FateSet(s, HandedOut);
      FateSet(s, CopyFailed);
    }
  }

  lemma PollerStepDrops(after: AfterCleanup, s: State, a: Action, s': State)
    requires MemoryInv(s) && ProgressInv(s) && Enabled(s, a) && !IsReaderAction(a) && s' == ApplyPoller(after, s, a)
    ensures DropsMessage(s') <==> DropsMessage(s) || SetupFails(a)
  {
    if a.CleanupDestroy? {
      FateSet(Destroy(s), SetupFailed);
      FateSet(Destroy(s), Discarded);
    } else if a.PollMessage? {
      assert s'.h.fates == s.h.fates + [InFlight];
    }
  }

  lemma {:induction false} RunDrops(after: AfterCleanup, run: seq<Action>, s: State)
    requires Exec(after, run) == Some(s)
    ensures DropsMessage(s) <==> Occurs(SetupFails, run)
    decreases |run|
  {
    if run != [] {
      var n := |run| - 1;
      var s0 := Exec(after, run[..n]).value;
      RunDrops(after, run[..n], s0);
      RunKeepsInv(after, run[..n]);
      StepDrops(after, s0, run[n], s);
      OccursExtends(SetupFails, run);
    }
  }

  /** In a run where setting up `payload` never fails, what readers get are the payloads of the
      proper messages polled, in order and none left out, but possibly that of the newest. */
  lemma EveryMessageHandedOut(after: AfterCleanup, run: seq<Action>)
    requires Exec(after, run).Some? && !Occurs(SetupFails, run)
    ensures var got, sent := FlatMap(HandedOutBy, run), GoodPayloads(FlatMap(PolledBy, run));
            got <= sent && |sent| <= |got| + 1
  {
    var s := Exec(after, run).value;
    RunRecorded(after, run, s);
    RunDrops(after, run, s);
    RunHandsOutInOrder(after, run);
  }
}
