/** The lock-free buffer reset protocol of `StreamBufReset_test.cxx`, one transition per segment between
    two checkpoints. Positions count chunks of 32 bytes from `block_start`; the block holds `cap` of
    them (one, in the test). A chunk is identified by the value that its bytes have. */
module StreamBuf {

  datatype Ptr = Null | At(pos: nat)

  /** Where the put thread is paused. */
  datatype PutPc =
    | PutIdle
    | ReadNext(v: Ptr)      // in `write`, after read_next_egptr
    | ReadLast(val: nat)    // in `write`, after read_last_gptr
    | Cleared               // in `write`, after set_next_egptr2(block_start)
    | Nulled                // in `write`, after set_next_egptr(nullptr)
    | Full                  // in `write`, about to return false
    | Synced2               // in `sync`, after set_next_egptr2(pptr)
    | SyncRead(v: Ptr)      // in `sync`, after read_next_egptr
    | SyncSet               // in `sync`, after set_next_egptr(pptr)

  /** Where the get thread is paused. */
  datatype GetPc =
    | GetIdle
    | TookEgptr                         // after egptr = next_egptr
    | ResetLast                         // after set_last_gptr(block_start)
    | ResetNext                         // after set_next_egptr(block_start)
    | TookNext2(expected: Ptr, n2: nat) // after n2 = next_egptr2
    | Exchanged                         // after the successful compare-exchange
    | Refilled                          // about to read the first chunk after a reset
    | Returning                         // about to return false

  datatype Call = NoCall | Write | Sync

  datatype State = State(
    cap: nat, next: Ptr, next2: nat, last: nat, mem: seq<nat>,
    pptr: nat, written: nat, ppc: PutPc, lastCall: Call,
    gptr: nat, egptr: Ptr, read: nat, output: seq<nat>, gpc: GetPc,
    failed: bool)

  function Init(cap: nat): State {
    State(cap, At(0), 0, 0, seq(cap, _ => 0), 0, 0, PutIdle, NoCall, 0, At(0), 0, [], GetIdle, false)
  }

  // ---------- the put thread ----------

  /** Writes the chunk `output_c`; `failed` if it does not fit in the block. */
  function WriteChunk(s: State): State {
    if s.pptr < s.cap && s.pptr < |s.mem| then
      s.(mem := s.mem[s.pptr := s.written], written := s.written + 1, pptr := s.pptr + 1,
         ppc := PutIdle, lastCall := Write)
    else s.(failed := true)
  }

  function WriteUnlessFull(s: State): State {
    if s.pptr == s.cap then s.(ppc := Full) else WriteChunk(s)
  }

  function StartWrite(s: State): State {
    if s.pptr != 0 then s.(ppc := ReadNext(s.next)) else WriteUnlessFull(s)
  }

  function StartSync(s: State): State {
    s.(next2 := s.pptr, ppc := Synced2)
  }

  /** The next segment of the put thread; `call` is only looked at between calls. */
  function PutStep(s: State, call: Call): State {
    match s.ppc
    case PutIdle => if call == Write then StartWrite(s) else if call == Sync then StartSync(s) else s
    case ReadNext(v) => if v != Null then s.(ppc := ReadLast(s.last)) else WriteUnlessFull(s)
    case ReadLast(val) => if s.pptr == val then s.(next2 := 0, ppc := Cleared) else WriteUnlessFull(s)
    case Cleared => s.(next := Null, ppc := Nulled)
    case Nulled => WriteChunk(s.(pptr := 0))
    case Full => s.(ppc := PutIdle, lastCall := Write)
    case Synced2 => s.(ppc := SyncRead(s.next))
    case SyncRead(v) =>
      if v != Null then s.(next := At(s.pptr), ppc := SyncSet) else s.(ppc := PutIdle, lastCall := Sync)
    case SyncSet => s.(ppc := PutIdle, lastCall := Sync)
  }

  // ---------- the get thread ----------

  /** Both assertions of `read`: there is a chunk to read, and it is the next one. */
  predicate ReadAsserts(s: State) {
    s.egptr.At? && s.egptr.pos - s.gptr >= 1 && s.gptr < |s.mem| && s.mem[s.gptr] == s.read
  }

  function ReadChunk(s: State): State {
    if ReadAsserts(s) then
      s.(output := s.output + [s.mem[s.gptr]], read := s.read + 1, gptr := s.gptr + 1, gpc := GetIdle)
    else s.(failed := true)
  }

  /** The next segment of the get thread, which does nothing but call `read`. */
  function GetStep(s: State): State {
    match s.gpc
    case GetIdle => s.(egptr := s.next, gpc := TookEgptr)
    case TookEgptr =>
      if s.egptr == Null then s.(gptr := 0, last := 0, gpc := ResetLast)
      else if s.egptr == At(s.gptr) then s.(last := s.gptr, gpc := Returning)
      else ReadChunk(s)
    case ResetLast => s.(next := At(0), gpc := ResetNext)
    case ResetNext => s.(gpc := TookNext2(At(0), s.next2))
    case TookNext2(expected, n2) =>
      if s.next == expected then s.(next := At(n2), gpc := Exchanged)
      else s.(gpc := TookNext2(s.next, s.next2))
    case Exchanged => s.(egptr := s.next, gpc := if s.next == At(0) then Returning else Refilled)
    case Refilled => ReadChunk(s)
    case Returning => s.(gpc := GetIdle)
  }

  // ---------- interleavings ----------

  datatype Event = Put(call: Call) | Get

  function Next(s: State, e: Event): State {
    match e
    case Put(call) => PutStep(s, call)
    case Get => GetStep(s)
  }

  function Run(cap: nat, events: seq<Event>): State {
    if events == [] then Init(cap) else Next(Run(cap, events[..|events| - 1]), events[|events| - 1])
  }

  // ---------- the invariant ----------

  /** The put pointer, taken to be reset as soon as the null pointer is published. */
  function LogicalPptr(s: State): nat {
    if s.ppc == Nulled then 0 else s.pptr
  }

  /** The number of the chunk that belongs at `block_start`. */
  function Base(s: State): int {
    s.written - LogicalPptr(s)
  }

  /** Chunks are read in the order in which they are written, and unread chunks stay in the block. */
  ghost predicate Fifo(s: State) {
    && !s.failed
    && |s.output| == s.read <= s.written
    && (forall i | 0 <= i < s.read :: s.output[i] == i)
    && |s.mem| == s.cap && s.pptr <= s.cap
    && 0 <= Base(s) <= s.read
    && (forall j | 0 <= j < |s.mem| && s.read - Base(s) <= j < LogicalPptr(s) :: s.mem[j] == Base(s) + j)
  }

  /** As long as no reset is pending, the pointers of the two sides refer to the same round. */
  ghost predicate Pointers(s: State) {
    && s.next2 <= LogicalPptr(s)
    && (s.next.At? ==> s.last <= s.gptr <= s.next.pos <= LogicalPptr(s) && s.gptr == s.read - Base(s))
    && (s.next.At? && s.ppc != Cleared ==> s.next.pos <= s.next2)
    && (s.next.Null? ==> s.read == Base(s))
  }

  ghost predicate PutSide(s: State) {
    match s.ppc
    case ReadNext(v) => s.pptr > 0 && (v.At? ==> s.next.At?)
    case ReadLast(val) => s.pptr > 0 && s.next.At? && val <= s.last
    case Cleared => s.pptr > 0 && s.next.At? && s.next2 == 0 && s.last == s.gptr == s.pptr
    case Nulled => s.pptr > 0
    case Synced2 => s.next2 == s.pptr
    case SyncRead(v) => s.next2 == s.pptr && (v.At? ==> s.next.At?)
    case SyncSet => s.next2 == s.pptr
    case PutIdle => s.lastCall != Write ==> s.next2 == s.pptr
    case Full => s.pptr == s.cap
  }

  ghost predicate GetSide(s: State) {
    match s.gpc
    case TookEgptr =>
      if s.egptr.Null? then s.next.Null?
      else if s.next.Null? then s.egptr.pos == s.gptr
      else s.gptr <= s.egptr.pos <= s.next.pos
    case ResetLast => s.next.Null? && s.gptr == 0 && s.last == 0
    case ResetNext => s.next.At? && s.gptr == 0 && s.last == 0
    case TookNext2(expected, n2) =>
      && s.next.At? && s.gptr == 0 && s.last == 0
      && expected.At? && expected.pos <= n2 <= s.next2 && expected.pos <= s.next.pos
    case Exchanged => s.next.At? && s.gptr == 0 && s.last == 0
    case Refilled => s.next.At? && s.gptr == 0 && s.last == 0 && s.egptr.At? && 0 < s.egptr.pos <= s.next.pos
    case Returning => s.last == s.gptr && s.egptr == At(s.gptr)
    case _ => true
  }

  /** Unless the put thread is about to publish, the last synced position is published, or the get
      thread is about to publish it. */
  ghost predicate Published(s: State) {
    s.ppc == Synced2 || (s.ppc.SyncRead? && s.ppc.v.At?) || s.ppc == Cleared
    || match s.gpc
       case ResetNext => true
       case TookNext2(expected, n2) => n2 == s.next2 || s.next == At(s.next2)
       case _ => s.next == Null || s.next == At(s.next2)
  }

  ghost predicate Inv(s: State) {
    Fifo(s) && Pointers(s) && PutSide(s) && GetSide(s) && Published(s)
  }

  lemma InitInv(cap: nat)
    ensures Inv(Init(cap))
  {
  }

  /** Writing behind the data that is there. */
  lemma WriteChunkKeepsInv(s: State)
    requires Inv(s) && s.pptr < s.cap && (s.ppc == PutIdle || s.ppc.ReadNext? || s.ppc.ReadLast?)
    ensures Inv(WriteChunk(s))
  {
  }

  /** Writing at the start of the block after a reset. */
  lemma WriteAfterResetKeepsInv(s: State)
    requires Inv(s) && s.ppc == Nulled
    ensures Inv(WriteChunk(s.(pptr := 0)))
  {
  }

  lemma ResetKeepsInv(s: State)
    requires Inv(s) && (s.ppc == Cleared || (s.ppc.ReadLast? && s.pptr == s.ppc.val))
    ensures Inv(PutStep(s, NoCall))
  {
  }

  lemma SyncKeepsInv(s: State)
    requires Inv(s) && (s.ppc == Synced2 || s.ppc == SyncSet)
    ensures Inv(PutStep(s, NoCall))
  {
  }

  lemma PublishKeepsInv(s: State)
    requires Inv(s) && s.ppc.SyncRead?
    ensures Inv(PutStep(s, NoCall))
  {
  }

  /** Steps of the put thread that neither write a chunk nor publish anything. */
  lemma LookKeepsInv(s: State, call: Call)
    requires Inv(s)
    requires s.ppc == Full || (s.ppc == PutIdle && (call != Write || s.pptr != 0))
             || (s.ppc.ReadNext? && s.ppc.v != Null)
    ensures Inv(PutStep(s, call))
  {
  }

  lemma FullKeepsInv(s: State)
    requires Inv(s) && s.pptr == s.cap && (s.ppc == PutIdle || s.ppc.ReadNext? || s.ppc.ReadLast?)
    ensures Inv(WriteUnlessFull(s))
  {
  }

  lemma WriteUnlessFullKeepsInv(s: State)
    requires Inv(s) && (s.ppc == PutIdle || s.ppc.ReadNext? || s.ppc.ReadLast?)
    ensures Inv(WriteUnlessFull(s))
  {
    if s.pptr == s.cap {
      FullKeepsInv(s);
    } else {
      WriteChunkKeepsInv(s);
    }
  }

  lemma PutKeepsInv(s: State, call: Call)
    requires Inv(s)
    ensures Inv(PutStep(s, call))
  {
    match s.ppc
    case PutIdle => if call == Write && s.pptr == 0 { WriteUnlessFullKeepsInv(s); } else { LookKeepsInv(s, call); }
    case ReadNext(v) => if v == Null { WriteUnlessFullKeepsInv(s); } else { LookKeepsInv(s, call); }
    case ReadLast(val) => if s.pptr == val { ResetKeepsInv(s); } else { WriteUnlessFullKeepsInv(s); }
    case Cleared => ResetKeepsInv(s);
    case Nulled => WriteAfterResetKeepsInv(s);
    case Full => LookKeepsInv(s, call);
    case SyncRead(_) => PublishKeepsInv(s);
    case _ => SyncKeepsInv(s);
  }

  lemma ReadChunkKeepsInv(s: State)
    requires Inv(s) && (s.gpc == Refilled || (s.gpc == TookEgptr && s.egptr.At? && s.egptr.pos != s.gptr))
    ensures Inv(ReadChunk(s))
  {
  }

  lemma GetResetKeepsInv(s: State)
    requires Inv(s) && (s.gpc == ResetLast || s.gpc == ResetNext || (s.gpc == TookEgptr && s.egptr.Null?))
    ensures Inv(GetStep(s))
  {
  }

  lemma ExchangeKeepsInv(s: State)
    requires Inv(s) && (s.gpc.TookNext2? || s.gpc == Exchanged)
    ensures Inv(GetStep(s))
  {
  }

  /** Steps of the get thread that find nothing to read. */
  lemma EmptyKeepsInv(s: State)
    requires Inv(s)
    requires s.gpc == GetIdle || s.gpc == Returning || (s.gpc == TookEgptr && s.egptr == At(s.gptr))
    ensures Inv(GetStep(s))
  {
  }

  lemma GetKeepsInv(s: State)
    requires Inv(s)
    ensures Inv(GetStep(s))
  {
    match s.gpc
    case TookEgptr =>
      if s.egptr == Null { GetResetKeepsInv(s); }
      else if s.egptr == At(s.gptr) { EmptyKeepsInv(s); }
      else { ReadChunkKeepsInv(s); }
    case ResetLast => GetResetKeepsInv(s);
    case ResetNext => GetResetKeepsInv(s);
    case TookNext2(_, _) => ExchangeKeepsInv(s);
    case Exchanged => ExchangeKeepsInv(s);
    case Refilled => ReadChunkKeepsInv(s);
    case _ => EmptyKeepsInv(s);
  }

  lemma {:induction false} RunKeepsInv(cap: nat, events: seq<Event>)
    ensures Inv(Run(cap, events))
  {
    if events == [] {
      InitInv(cap);
    } else {
      var s, e := Run(cap, events[..|events| - 1]), events[|events| - 1];
      RunKeepsInv(cap, events[..|events| - 1]);
      if e.Put? {
        PutKeepsInv(s, e.call);
      } else {
        GetKeepsInv(s);
      }
    }
  }

  // ---------- what the protocol guarantees, in every interleaving ----------

  /** The k-th chunk read is the k-th chunk written, and no assertion ever fails. */
  lemma FifoOrder(cap: nat, events: seq<Event>)
    ensures var s := Run(cap, events);
            !s.failed && |s.output| == s.read <= s.written && forall k | 0 <= k < s.read :: s.output[k] == k
  {
    RunKeepsInv(cap, events);
  }

  /** The block is only reset when everything in it has been read. */
  lemma ResetOnlyWhenEmpty(cap: nat, events: seq<Event>)
    ensures var s := Run(cap, events);
            s.ppc == Cleared || s.ppc == Nulled ==> s.read == s.written
  {
    RunKeepsInv(cap, events);
    var s := Run(cap, events);
    if s.ppc == Nulled {
      NulledIsEmpty(cap, events);
    }
  }

  /** After the null pointer is published, nothing is read until the put thread has written again. */
  lemma {:induction false} NulledIsEmpty(cap: nat, events: seq<Event>)
    requires Run(cap, events).ppc == Nulled
    ensures Run(cap, events).read == Run(cap, events).written
  {
    var s, e := Run(cap, events[..|events| - 1]), events[|events| - 1];
    RunKeepsInv(cap, events);
    RunKeepsInv(cap, events[..|events| - 1]);
    if s.ppc == Nulled {
      NulledIsEmpty(cap, events[..|events| - 1]);
    }
  }

  lemma UnreadSlot(s: State, k: nat)
    requires Fifo(s) && s.read <= k < s.written
    ensures 0 <= k - Base(s) < |s.mem| && s.mem[k - Base(s)] == k
  {
  }

  lemma BaseStays(s: State, e: Event)
    requires Inv(s) && Next(s, e).read < s.written
    ensures Base(Next(s, e)) == Base(s) && |Next(s, e).mem| == |s.mem|
  {
  }

  /** Unread chunks stay where they are: no step overwrites or moves one that is unread after the step. */
  lemma UnreadSurvives(s: State, e: Event, k: nat)
    requires Inv(s) && Next(s, e).read <= k < s.written
    ensures var s', slot := Next(s, e), k - Base(s);
            && Base(s') == Base(s) && 0 <= slot < |s.mem| == |s'.mem|
            && s.mem[slot] == k == s'.mem[slot]
  {
    if e.Put? { PutKeepsInv(s, e.call); } else { GetKeepsInv(s); }
    GrowsOnly(s, e);
    BaseStays(s, e);
    UnreadSlot(s, k);
    UnreadSlot(Next(s, e), k);
  }

  lemma GrowsOnly(s: State, e: Event)
    ensures s.read <= Next(s, e).read && s.written <= Next(s, e).written
  {
  }

  /** Whenever neither thread is inside a call, the last synced position is published, directly or
      behind the null pointer; and if the put thread's last call was `sync`, that is all it wrote. */
  lemma NoLostPublication(cap: nat, events: seq<Event>)
    ensures var s := Run(cap, events);
            s.ppc == PutIdle && s.gpc == GetIdle ==>
              && (s.next == At(s.next2) || s.next == Null)
              && (s.lastCall != Write ==> s.next2 == s.pptr)
  {
    RunKeepsInv(cap, events);
  }

  /** The compare-exchange never installs an older position, and a failed one is paid for: the position
      it expects next time is larger, and it cannot get larger than the block. */
  lemma ExchangePaid(s: State)
    requires Inv(s) && s.gpc.TookNext2?
    ensures var s' := GetStep(s);
            && s.next.At? && s'.next.At? && s.next.pos <= s'.next.pos
            && (s'.gpc.TookNext2? ==> s'.gpc.expected.At? && s.gpc.expected.pos < s'.gpc.expected.pos <= s.cap)
            && (s'.gpc.TookNext2? || s'.gpc == Exchanged)
  {
  }

  /** How often the compare-exchange of the current call of `read` has failed. */
  function Failures(cap: nat, events: seq<Event>): nat {
    if events == [] then 0
    else
      var before, e := events[..|events| - 1], events[|events| - 1];
      var s := Run(cap, before);
      if e == Get && s.gpc == GetIdle then 0
      else Failures(cap, before) + if e == Get && s.gpc.TookNext2? && s.next != s.gpc.expected then 1 else 0
  }

  /** The failures are paid for by the position that is expected now. */
  predicate FailuresPaid(s: State, failures: nat) {
    match s.gpc
    case TookNext2(expected, n2) => expected.At? && failures <= expected.pos <= s.cap
    case TookEgptr => failures == 0
    case ResetLast => failures == 0
    case ResetNext => failures == 0
    case _ => failures <= s.cap
  }

  lemma PutKeepsPaid(s: State, call: Call, failures: nat)
    requires FailuresPaid(s, failures)
    ensures FailuresPaid(PutStep(s, call), failures)
  {
  }

  lemma GetKeepsPaid(s: State, failures: nat)
    requires Inv(s) && FailuresPaid(s, failures)
    ensures FailuresPaid(GetStep(s), if s.gpc == GetIdle then 0
                                     else failures + if s.gpc.TookNext2? && s.next != s.gpc.expected then 1 else 0)
  {
    if s.gpc.TookNext2? {
      ExchangePaid(s);
    }
  }

  /** In every interleaving, one call of `read` fails its compare-exchange at most as often as the block has chunks. */
  lemma {:induction false} FewRetries(cap: nat, events: seq<Event>)
    ensures FailuresPaid(Run(cap, events), Failures(cap, events))
    ensures Run(cap, events).cap == cap && Failures(cap, events) <= cap
  {
    if events != [] {
      var before, e := events[..|events| - 1], events[|events| - 1];
      FewRetries(cap, before);
      if e.Put? {
        PutKeepsPaid(Run(cap, before), e.call, Failures(cap, before));
      } else {
        RunKeepsInv(cap, before);
        GetKeepsPaid(Run(cap, before), Failures(cap, before));
      }
    }
  }

  /** `write` only gives up when the block is full. */
  lemma FullMeansFull(cap: nat, events: seq<Event>)
    ensures var s := Run(cap, events); s.ppc == Full ==> s.pptr == s.cap == cap
  {
    RunKeepsInv(cap, events);
    FewRetries(cap, events);
  }

  /** `read` only gives up when it found nothing beyond its position, and then it has published that position. */
  lemma EmptyMeansPublished(cap: nat, events: seq<Event>)
    ensures var s := Run(cap, events); s.gpc == Returning ==> s.last == s.gptr && s.egptr == At(s.gptr)
  {
    RunKeepsInv(cap, events);
  }

  // ---------- what is published is read ----------

  function GetAlone(s: State, n: nat): State
    decreases n
  {
    if n == 0 then s else GetAlone(GetStep(s), n - 1)
  }

  /** How far the get thread is from its next chunk when it runs alone. */
  function Distance(s: State): nat {
    match s.gpc
    case TookEgptr => if s.egptr == At(s.gptr) then 10 else 7
    case Returning => 9
    case GetIdle => 8
    case ResetLast => 6
    case ResetNext => 5
    case TookNext2(expected, n2) => if s.next == expected then 3 else 4
    case Exchanged => 2
    case Refilled => 1
  }

  lemma GetApproaches(s: State)
    requires Inv(s) && s.ppc == PutIdle && s.lastCall != Write && s.read < s.written
    ensures var s' := GetStep(s);
            && s'.ppc == PutIdle && s'.lastCall == s.lastCall && s'.written == s.written
            && (s'.read == s.read + 1 || (s'.read == s.read && Distance(s') < Distance(s)))
  {
  }

  /** Nothing is lost: once the put thread has synced, `read` calls alone bring out every chunk. */
  lemma {:induction false} Drains(s: State) returns (n: nat)
    requires Inv(s) && s.ppc == PutIdle && s.lastCall != Write
    ensures Inv(GetAlone(s, n)) && GetAlone(s, n).read == s.written
    decreases s.written - s.read, Distance(s)
  {
    if s.read == s.written {
      n := 0;
    } else {
      GetApproaches(s);
      GetKeepsInv(s);
      var m := Drains(GetStep(s));
      n := m + 1;
    }
  }

  // ---------- the writer gets room again ----------

  function PutAlone(s: State, call: Call, n: nat): State
    decreases n
  {
    if n == 0 then s else PutAlone(PutStep(s, call), call, n - 1)
  }

  lemma {:induction false} PutAloneKeepsInv(s: State, call: Call, n: nat)
    requires Inv(s)
    ensures Inv(PutAlone(s, call, n))
    decreases n
  {
    if n > 0 {
      PutKeepsInv(s, call);
      PutAloneKeepsInv(PutStep(s, call), call, n - 1);
    }
  }

  lemma PutTwice(s: State, call: Call, n: nat)
    ensures PutAlone(s, call, n + 2) == PutAlone(PutStep(PutStep(s, call), call), call, n)
  {
  }

  /** A whole call of `sync`. */
  lemma SyncAlone(s: State) returns (n: nat)
    requires Inv(s) && s.ppc == PutIdle
    ensures var s' := PutAlone(s, Sync, n);
            && Inv(s') && s'.ppc == PutIdle && s'.lastCall == Sync && s'.next2 == s'.pptr == s.pptr
            && s'.read == s.read && s'.written == s.written && s'.cap == s.cap
            && (s'.next == if s.next == Null then Null else At(s.pptr))
  {
    n := if s.next == Null then 3 else 4;
    PutTwice(s, Sync, n - 2);
    PutAloneKeepsInv(s, Sync, n);
    var s2 := PutStep(PutStep(s, Sync), Sync);
    assert s2.ppc == SyncRead(s.next);
    if s.next != Null {
      PutTwice(s2, Sync, 0);
    }
  }

  lemma GetAloneThen(s: State, n: nat, m: nat)
    ensures GetAlone(s, n + m) == GetAlone(GetAlone(s, n), m)
    decreases n
  {
    if n > 0 {
      GetAloneThen(GetStep(s), n - 1, m);
    }
  }

  lemma GetStepLeavesPut(s: State)
    ensures var s' := GetStep(s);
            && s'.ppc == s.ppc && s'.pptr == s.pptr && s'.written == s.written && s'.cap == s.cap
            && s'.lastCall == s.lastCall
  {
  }

  lemma {:induction false} GetLeavesPut(s: State, n: nat)
    requires Inv(s)
    ensures var s' := GetAlone(s, n);
            && Inv(s') && s'.ppc == s.ppc && s'.pptr == s.pptr && s'.written == s.written && s'.cap == s.cap
            && s'.lastCall == s.lastCall
    decreases n
  {
    if n > 0 {
      GetKeepsInv(s);
      GetStepLeavesPut(s);
      GetLeavesPut(GetStep(s), n - 1);
    }
  }

  /** Everything was read, and if the block is not at its start, the reader has said so. */
  ghost predicate Emptied(s: State) {
    s.read == s.written && (s.pptr > 0 ==> s.next == At(s.pptr) && s.last == s.pptr)
  }

  ghost predicate Drained(s: State) {
    Inv(s) && s.ppc == PutIdle && s.lastCall != Write && s.read == s.written
  }

  lemma DrainedPointers(s: State)
    requires Drained(s) && s.pptr > 0
    ensures s.next == At(s.pptr) && s.gptr == s.pptr
    ensures s.gpc == GetIdle || s.gpc == TookEgptr || s.gpc == Returning
    ensures s.gpc == TookEgptr ==> s.egptr == At(s.gptr)
  {
  }

  /** A reader that has read everything publishes its position with the next call of `read`. */
  lemma EmptyRead(s: State) returns (n: nat)
    requires Drained(s)
    ensures Emptied(GetAlone(s, n))
  {
    n := 0;
    if s.pptr > 0 {
      DrainedPointers(s);
      var s1 := GetStep(s);
      GetKeepsInv(s);
      if s.gpc == GetIdle {
        assert GetAlone(s, 2) == GetAlone(s1, 1) == GetAlone(GetStep(s1), 0);
        n := 2;
      } else if s.gpc == TookEgptr {
        assert GetAlone(s, 1) == GetAlone(s1, 0);
        n := 1;
      }
    }
  }

  lemma ReadsEmpty(s: State) returns (n: nat)
    requires Inv(s) && s.ppc == PutIdle && s.lastCall != Write
    ensures Emptied(GetAlone(s, n))
  {
    var a := Drains(s);
    GetLeavesPut(s, a);
    var b := EmptyRead(GetAlone(s, a));
    GetAloneThen(s, a, b);
    n := a + b;
  }

  /** The call of `write` that finds the buffer emptied writes, in five segments if it has to reset first. */
  lemma WriteWhenEmptied(s: State)
    requires Inv(s) && s.ppc == PutIdle && s.cap >= 1 && Emptied(s)
    ensures var s' := PutAlone(s, Write, if s.pptr == 0 then 1 else 5);
            && Inv(s') && s'.ppc == PutIdle && s'.written == s.written + 1 && s'.pptr == 1
  {
    PutAloneKeepsInv(s, Write, if s.pptr == 0 then 1 else 5);
    if s.pptr > 0 {
      PutTwice(s, Write, 3);
      var s2 := PutStep(PutStep(s, Write), Write);
      assert s2.ppc == ReadLast(s.pptr);
      PutTwice(s2, Write, 1);
      assert PutStep(PutStep(s2, Write), Write).ppc == Nulled;
    }
  }

  /** The writer gets room again: after a `sync`, some calls of `read` and then one call of `write` write a chunk,
      however full the block was. */
  lemma WriterGetsRoom(s: State) returns (n: nat, m: nat)
    requires Inv(s) && s.cap >= 1 && s.ppc == PutIdle && s.lastCall != Write
    ensures var s' := PutAlone(GetAlone(s, n), Write, m);
            Inv(s') && s'.ppc == PutIdle && s'.written == s.written + 1
  {
    n := ReadsEmpty(s);
    GetLeavesPut(s, n);
    m := if s.pptr == 0 then 1 else 5;
    WriteWhenEmptied(GetAlone(s, n));
  }

  /** So wherever a call of the put thread has ended, a `sync`, some reads and a `write` go on from there. */
  lemma AlwaysGoesOn(cap: nat, events: seq<Event>) returns (k: nat, n: nat, m: nat)
    requires cap >= 1 && Run(cap, events).ppc == PutIdle
    ensures var s := Run(cap, events);
            var s' := PutAlone(GetAlone(PutAlone(s, Sync, k), n), Write, m);
            Inv(s') && s'.ppc == PutIdle && s'.written == s.written + 1
  {
    RunKeepsInv(cap, events);
    FewRetries(cap, events);
    var s := Run(cap, events);
    k := SyncAlone(s);
    n, m := WriterGetsRoom(PutAlone(s, Sync, k));
  }

  // ---------- how many checkpoints a call has ----------

  /** The segments that the put thread has made in its current call. */
  function PutSegments(cap: nat, events: seq<Event>): nat {
    if events == [] then 0
    else
      var before, e := events[..|events| - 1], events[|events| - 1];
      if e == Get then PutSegments(cap, before)
      else (if Run(cap, before).ppc == PutIdle then 0 else PutSegments(cap, before)) + 1
  }

  /** The segments that the get thread has made in its current call, failed exchanges not counted. */
  function GetSegments(cap: nat, events: seq<Event>): nat {
    if events == [] then 0
    else
      var before, e := events[..|events| - 1], events[|events| - 1];
      var s := Run(cap, before);
      if e != Get || (s.gpc.TookNext2? && s.next != s.gpc.expected) then GetSegments(cap, before)
      else (if s.gpc == GetIdle then 0 else GetSegments(cap, before)) + 1
  }

  predicate PutSegmentsFit(s: State, n: nat) {
    match s.ppc
    case PutIdle => true
    case ReadNext(_) => n == 1
    case ReadLast(_) => n == 2
    case Cleared => n == 3
    case Nulled => n == 4
    case Full => 1 <= n <= 3
    case Synced2 => n == 1
    case SyncRead(_) => n == 2
    case SyncSet => n == 3
  }

  lemma PutStepFits(s: State, call: Call, n: nat)
    requires !s.failed && !PutStep(s, call).failed && PutSegmentsFit(s, n)
    ensures PutSegmentsFit(PutStep(s, call), (if s.ppc == PutIdle then 0 else n) + 1)
  {
  }

  predicate GetSegmentsFit(s: State, n: nat) {
    match s.gpc
    case GetIdle => true
    case TookEgptr => n == 1
    case ResetLast => n == 2
    case ResetNext => n == 3
    case TookNext2(_, _) => n == 4
    case Exchanged => n == 5
    case Refilled => n == 6
    case Returning => n == 2 || n == 6
  }

  lemma GetStepFits(s: State, n: nat)
    requires !s.failed && !GetStep(s).failed && GetSegmentsFit(s, n)
    ensures GetSegmentsFit(GetStep(s), if s.gpc.TookNext2? && s.next != s.gpc.expected then n
                                       else (if s.gpc == GetIdle then 0 else n) + 1)
  {
  }

  lemma {:induction false} SegmentsFit(cap: nat, events: seq<Event>)
    ensures PutSegmentsFit(Run(cap, events), PutSegments(cap, events))
    ensures GetSegmentsFit(Run(cap, events), GetSegments(cap, events))
  {
    RunKeepsInv(cap, events);
    if events != [] {
      var before, e := events[..|events| - 1], events[|events| - 1];
      var s := Run(cap, before);
      SegmentsFit(cap, before);
      RunKeepsInv(cap, before);
      if e.Put? {
        PutStepFits(s, e.call, PutSegments(cap, before));
        assert PutStep(s, e.call).gpc == s.gpc;
      } else {
        GetStepFits(s, GetSegments(cap, before));
        GetStepLeavesPut(s);
      }
    }
  }

  lemma RunSnoc(cap: nat, events: seq<Event>, e: Event)
    ensures Run(cap, events + [e]) == Next(Run(cap, events), e)
  {
    assert (events + [e])[..|events|] == events;
  }

  lemma PutCallEnds(s: State, call: Call, before: nat, n: nat)
    requires PutSide(s) && !s.failed && !PutStep(s, call).failed
    requires PutSegmentsFit(s, before) && n == (if s.ppc == PutIdle then 0 else before) + 1
    requires PutStep(s, call).ppc == PutIdle && (s.ppc == PutIdle ==> call != NoCall)
    ensures CallFits(s, PutStep(s, call), n)
  {
  }

  /** The number of segments of a call of the put thread, whose last one leads from `s` to `s'`. */
  predicate CallFits(s: State, s': State, n: nat) {
    if s'.written > s.written then
      if s'.pptr == s.pptr + 1 then n <= 3 && (n == 1 <==> s.pptr == 0) else n == 5 && s'.pptr == 1
    else if s'.lastCall == Sync then s'.next == s.next && 3 <= n <= 4
    else s'.pptr == s.cap && 2 <= n <= 4
  }

  lemma SegmentsSnoc(cap: nat, events: seq<Event>, call: Call)
    ensures PutSegments(cap, events + [Put(call)]) ==
            (if Run(cap, events).ppc == PutIdle then 0 else PutSegments(cap, events)) + 1
  {
    assert (events + [Put(call)])[..|events|] == events;
  }

  /** The checkpoints of the put thread: a `write` that resets the buffer has five segments, any other that writes a
      chunk one to three, one exactly when the put pointer is at the start; one that gives up has two to four; a `sync`
      has three or four, and publishes before the last of them. */
  lemma PutCheckpoints(cap: nat, events: seq<Event>, call: Call)
    requires Run(cap, events + [Put(call)]).ppc == PutIdle
    requires Run(cap, events).ppc == PutIdle ==> call != NoCall
    ensures CallFits(Run(cap, events), Run(cap, events + [Put(call)]), PutSegments(cap, events + [Put(call)]))
  {
    RunSnoc(cap, events, Put(call));
    FifoOrder(cap, events + [Put(call)]);
    RunKeepsInv(cap, events);
    SegmentsFit(cap, events);
    SegmentsSnoc(cap, events, call);
    PutCallEnds(Run(cap, events), call, PutSegments(cap, events), PutSegments(cap, events + [Put(call)]));
  }

  /** The checkpoints of the get thread, failed exchanges not counted: a `read` that brings out a chunk has two
      segments, one that finds nothing three, and one that resets the get area seven in either case. */
  lemma GetCheckpoints(cap: nat, events: seq<Event>)
    requires Run(cap, events + [Get]).gpc == GetIdle
    ensures var s, s', n := Run(cap, events), Run(cap, events + [Get]), GetSegments(cap, events + [Get]);
            n == 7 || n == if s'.read > s.read then 2 else 3
  {
    RunSnoc(cap, events, Get);
    RunKeepsInv(cap, events);
    SegmentsFit(cap, events);
    assert (events + [Get])[..|events|] == events;
  }

  // ---------- the same, in place ----------

  /** The fields of `Atomic`, `PutState` and `GetState`, updated one segment at a time. */
  class SharedState {
    const cap: nat
    var next: Ptr
    var next2: nat
    var last: nat
    const mem: array<nat>
    var pptr: nat
    var written: nat
    var ppc: PutPc
    ghost var lastCall: Call
    var gptr: nat
    var egptr: Ptr
    var read: nat
    var output: seq<nat>
    var gpc: GetPc
    ghost var failed: bool

    constructor (cap: nat)
      ensures View() == Init(cap) && fresh(mem)
    {
      this.cap := cap;
      next, next2, last := At(0), 0, 0;
      mem := new nat[cap](_ => 0);
      pptr, written, ppc, lastCall := 0, 0, PutIdle, NoCall;
      gptr, egptr, read, output, gpc := 0, At(0), 0, [], GetIdle;
      failed := false;
      new;
      assert mem[..] == seq(cap, _ => 0);
    }

    ghost function View(): State
      reads this, mem
    {
      State(cap, next, next2, last, mem[..], pptr, written, ppc, lastCall,
            gptr, egptr, read, output, gpc, failed)
    }

    /** The tail of `write`: fill a chunk and move the put pointer. */
    method WriteHere()
      requires pptr < mem.Length && pptr < cap
      modifies `pptr, `written, `ppc, `lastCall, mem
      ensures View() == WriteChunk(old(View()))
    {
      mem[pptr] := written;
      written := written + 1;
      pptr := pptr + 1;
      ppc, lastCall := PutIdle, Write;
    }

    method WriteHereUnlessFull()
      requires Inv(View()) && (ppc == PutIdle || ppc.ReadNext? || ppc.ReadLast?)
      modifies `pptr, `written, `ppc, `lastCall, mem
      ensures View() == WriteUnlessFull(old(View()))
    {
      if pptr == cap {
        ppc := Full;
      } else {
        WriteHere();
      }
    }

    /** `write`, from one checkpoint to the next. */
    method WriteSegment()
      requires Inv(View())
      requires ppc == PutIdle || ppc.ReadNext? || ppc.ReadLast? || ppc == Cleared || ppc == Nulled || ppc == Full
      modifies `next, `next2, `pptr, `written, `ppc, `lastCall, mem
      ensures View() == PutStep(old(View()), Write)
    {
      match ppc {
        case PutIdle => if pptr != 0 { ppc := ReadNext(next); } else { WriteHereUnlessFull(); }
        case ReadNext(v) => if v != Null { ppc := ReadLast(last); } else { WriteHereUnlessFull(); }
        case ReadLast(val) =>
          if pptr == val {
            next2 := 0;
            ppc := Cleared;
          } else {
            WriteHereUnlessFull();
          }
        case Cleared => next := Null; ppc := Nulled;
        case Nulled => pptr := 0; WriteHere();
        case Full => ppc, lastCall := PutIdle, Write;
      }
    }

    /** `sync`, from one checkpoint to the next. */
    method SyncSegment()
      requires ppc == PutIdle || ppc == Synced2 || ppc.SyncRead? || ppc == SyncSet
      modifies `next, `next2, `ppc, `lastCall
      ensures View() == PutStep(old(View()), Sync)
    {
      match ppc {
        case PutIdle => next2 := pptr; ppc := Synced2;
        case Synced2 => ppc := SyncRead(next);
        case SyncRead(v) =>
          if v != Null {
            next := At(pptr);
            ppc := SyncSet;
          } else {
            ppc, lastCall := PutIdle, Sync;
          }
        case SyncSet => ppc, lastCall := PutIdle, Sync;
      }
    }

    /** Lets the put thread run to its next checkpoint. */
    method Put(call: Call)
      requires Inv(View())
      modifies this, mem
      ensures View() == PutStep(old(View()), call)
    {
      if (ppc == PutIdle && call == Sync) || ppc == Synced2 || ppc.SyncRead? || ppc == SyncSet {
        SyncSegment();
      } else if ppc != PutIdle || call == Write {
        WriteSegment();
      }
    }

    /** The tail of `read`, with its two assertions. */
    method ReadHere()
      requires ReadAsserts(View())
      modifies `output, `read, `gptr, `gpc
      ensures View() == ReadChunk(old(View()))
    {
      assert egptr.pos - gptr >= 1;
      output := output + [mem[gptr]];
      assert mem[gptr] == read;
      read := read + 1;
      gptr := gptr + 1;
      gpc := GetIdle;
    }

    /** The part of `read` that follows a null pointer: reset, then the compare-exchange loop. */
    method ResetSegment()
      requires gpc == ResetLast || gpc == ResetNext || gpc.TookNext2? || gpc == Exchanged
      modifies `next, `egptr, `gpc
      ensures View() == GetStep(old(View()))
    {
      match gpc {
        case ResetLast => next := At(0); gpc := ResetNext;
        case ResetNext => gpc := TookNext2(At(0), next2);
        case TookNext2(expected, n2) =>
          if next == expected {
            next := At(n2);
            gpc := Exchanged;
          } else {
            gpc := TookNext2(next, next2);
          }
        case Exchanged => egptr := next; gpc := if egptr == At(0) then Returning else Refilled;
      }
    }

    /** Lets the get thread run to its next checkpoint. */
    method Get()
      requires Inv(View())
      modifies `next, `last, `gptr, `egptr, `read, `output, `gpc
      ensures View() == GetStep(old(View()))
    {
      match gpc {
        case GetIdle => egptr := next; gpc := TookEgptr;
        case TookEgptr =>
          if egptr == Null {
            gptr, last := 0, 0;
            gpc := ResetLast;
          } else if egptr == At(gptr) {
            last := gptr;
            gpc := Returning;
          } else {
            ReadHere();
          }
        case Refilled => ReadHere();
        case Returning => gpc := GetIdle;
        case _ => ResetSegment();
      }
    }
  }

  /** Runs the two threads in the given order, from the initial state. */
  method Interleave(cap: nat, events: seq<Event>) returns (output: seq<nat>, written: nat)
    ensures output == Run(cap, events).output && written == Run(cap, events).written
    ensures |output| <= written && forall k | 0 <= k < |output| :: output[k] == k
  {
    var buffer := new SharedState(cap);
    InitInv(cap);
    assert events[..0] == [];
    for i := 0 to |events|
      invariant buffer.View() == Run(cap, events[..i]) && Inv(buffer.View()) && fresh(buffer) && fresh(buffer.mem)
    {
      assert events[..i + 1][..i] == events[..i];
      match events[i] {
        case Put(call) => PutKeepsInv(buffer.View(), call); buffer.Put(call);
        case Get => GetKeepsInv(buffer.View()); buffer.Get();
      }
    }
    assert events[..|events|] == events;
    output, written := buffer.output, buffer.written;
  }
}
