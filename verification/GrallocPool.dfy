/** The four intermediate buffers of a session and the table of live gralloc handles.

    A request with two outputs is handed one slot. The client picks a slot under
    mGrallocBufferLock, lets the lock go, and claims the slot under the lock again; the output
    worker may return other slots in between. */
module GrallocPool {
  import Runs

  type Handle = nat
  type Frame = nat

  const SLOTS: nat := 4

  type SlotIndex = i: nat | i < SLOTS

  datatype Status = Free | Dequeued | Enqueued

  datatype Size = Size(width: nat, height: nat)

  datatype Slot = Slot(status: Status, size: Size, handle: Handle)

  const Unused := Slot(Free, Size(0, 0), 0)

  type Slots = s: seq<Slot> | |s| == SLOTS witness [Unused, Unused, Unused, Unused]

  /** table: the live handles of GrallocDevice and the size of the buffer behind each.
      held: the slot of every two-output request that has been handed one and has neither
      returned nor abandoned it. picked: what getGrallocBufferIndex has just returned. */
  datatype Pool = Pool(slots: Slots, table: map<Handle, Size>,
                       held: map<Frame, SlotIndex>, picked: Picked)

  datatype Picked = Nothing | Index(i: SlotIndex)

  datatype Step =
    | Pick
    | Claim(frame: Frame, size: Size, newHandle: Handle, allocOk: bool)
    | Return(frame: Frame)   // setGrallocBufferStatus, by the worker or by a failed submission
    | Abandon(frames: set<Frame>)  // a flush, a switch, no usable buffer: no slot is returned

  const Init := Pool([Unused, Unused, Unused, Unused], map[], map[], Nothing)

  // ---------------------------------------------------------------- steps

  /** The first slot from index k on with the given status, or -1. */
  function FirstFrom(slots: seq<Slot>, status: Status, k: nat): (i: int)
    requires k <= |slots|
    ensures -1 <= i < |slots|
    ensures i >= 0 ==> k <= i && slots[i].status == status
    ensures forall m :: k <= m < |slots| && (m < i || i < 0) ==> slots[m].status != status
    decreases |slots| - k
  {
    if k == |slots| then -1
    else if slots[k].status == status then k
    else FirstFrom(slots, status, k + 1)
  }

  /** A buffer that is ready for reuse is preferred to a new allocation. */
  function PickIndex(slots: seq<Slot>): (i: int)
    ensures -1 <= i < |slots|
  {
    var i := FirstFrom(slots, Enqueued, 0);
    if i >= 0 then i else FirstFrom(slots, Free, 0)
  }

  /** Claiming slot i: the slot and the table afterwards, and whether it was handed out. */
  datatype Claimed = Claimed(slot: Slot, table: map<Handle, Size>, ok: bool)

  function Grab(slot: Slot, table: map<Handle, Size>,
                size: Size, newHandle: Handle, allocOk: bool): Claimed {
    if slot.status == Free then
      if !allocOk then Claimed(slot.(size := size), table, false)
      else Claimed(Slot(Dequeued, size, newHandle), table[newHandle := size], true)
    else if slot.size == size then
      Claimed(slot.(status := Dequeued), table, true)
    else if slot.handle !in table then
      Claimed(slot.(status := Enqueued), table, false)
    else
      var rest := table - {slot.handle};
      if !allocOk then Claimed(slot.(status := Free, size := size), rest, false)
      else Claimed(Slot(Dequeued, size, newHandle), rest[newHandle := size], true)
  }

  function ClaimSlot(p: Pool, frame: Frame, size: Size, newHandle: Handle, allocOk: bool): Pool
    requires p.picked.Index?
  {
    var i := p.picked.i;
    var c := Grab(p.slots[i], p.table, size, newHandle, allocOk);
    Pool(p.slots[i := c.slot], c.table, if c.ok then p.held[frame := i] else p.held, Nothing)
  }

  /** setGrallocBufferStatus, called for the request of a frame. */
  function ReturnSlot(p: Pool, frame: Frame, i: SlotIndex): Pool {
    p.(slots := p.slots[i := p.slots[i].(status := Enqueued)], held := p.held - {frame})
  }

  function PickSlot(p: Pool): Pool {
    var i := PickIndex(p.slots);
    p.(picked := if i < 0 then Nothing else Index(i))
  }

  predicate Enabled(p: Pool, step: Step) {
    match step
    case Pick => p.picked.Nothing?
    case Claim(frame, _, newHandle, _) =>
      p.picked.Index? && frame !in p.held && newHandle !in p.table
    case Return(frame) => frame in p.held
    case Abandon(_) => true
  }

  function Apply(p: Pool, step: Step): Pool
    requires Enabled(p, step)
  {
    match step
    case Pick => PickSlot(p)
    case Claim(frame, size, newHandle, allocOk) => ClaimSlot(p, frame, size, newHandle, allocOk)
    case Return(frame) => ReturnSlot(p, frame, p.held[frame])
    case Abandon(frames) => p.(held := p.held - frames)
  }

  ghost predicate Next(p: Pool, q: Pool) {
    exists step :: Enabled(p, step) && q == Apply(p, step)
  }

  ghost predicate Reachable(p: Pool) { Runs.Reachable(p, Init, Next) }

  // ---------------------------------------------------------------- what every run keeps

  /** The live handles are those of the slots that are not free, one each, and the buffer
      behind a slot has the slot's size. */
  ghost predicate TableExact(slots: seq<Slot>, table: map<Handle, Size>) {
    && (forall i :: 0 <= i < |slots| && slots[i].status != Free
          ==> slots[i].handle in table && table[slots[i].handle] == slots[i].size)
    && (forall i, j :: 0 <= i < j < |slots| && slots[i].status != Free && slots[j].status != Free
          ==> slots[i].handle != slots[j].handle)
    && (forall h :: h in table ==> Owned(slots, h))
  }

  ghost predicate Owned(slots: seq<Slot>, h: Handle) {
    exists i :: 0 <= i < |slots| && slots[i].status != Free && slots[i].handle == h
  }

  /** Holders have distinct dequeued slots. */
  ghost predicate HeldApart(slots: Slots, held: map<Frame, SlotIndex>) {
    && (forall f :: f in held ==> slots[held[f]].status == Dequeued)
    && (forall f, g :: f in held && g in held && f != g ==> held[f] != held[g])
  }

  ghost predicate Inv(p: Pool) {
    && TableExact(p.slots, p.table)
    && HeldApart(p.slots, p.held)
    && (p.picked.Index? ==> p.slots[p.picked.i].status != Dequeued)
  }

  lemma {:induction false} GrabKeepsTable(p: Pool, i: nat, size: Size, newHandle: Handle,
                                          allocOk: bool)
    requires TableExact(p.slots, p.table) && i < |p.slots| && newHandle !in p.table
    ensures var c := Grab(p.slots[i], p.table, size, newHandle, allocOk);
            TableExact(p.slots[i := c.slot], c.table)
  {
    var c := Grab(p.slots[i], p.table, size, newHandle, allocOk);
    var slots := p.slots[i := c.slot];
    forall h | h in c.table ensures Owned(slots, h) {
      if h == c.slot.handle && c.slot.status != Free {
        assert slots[i].handle == h;
      } else {
        assert h in p.table && Owned(p.slots, h);
        var k :| 0 <= k < |p.slots| && p.slots[k].status != Free && p.slots[k].handle == h;
        assert slots[k] == p.slots[k];
      }
    }
  }

  /** The branch of the resize path that finds its handle gone is never taken. */
  lemma {:induction false} FreeNeverMisses(p: Pool)
    requires Reachable(p) && p.picked.Index?
    ensures p.slots[p.picked.i].status == Enqueued ==> p.slots[p.picked.i].handle in p.table
  {
    InvReachable(p);
  }

  lemma {:induction false} InvStep(p: Pool, step: Step)
    requires Inv(p) && Enabled(p, step)
    ensures Inv(Apply(p, step))
  {
    match step
    case Pick => PickFailsExactly(p);
    case Claim(frame, size, newHandle, allocOk) =>
      GrabKeepsTable(p, p.picked.i, size, newHandle, allocOk);
      ClaimKeepsApart(p, frame, size, newHandle, allocOk);
    case Return(frame) =>
      ReturnKeepsTable(p.slots, p.table, p.held[frame]);
      ReturnKeepsApart(p, frame);
    case Abandon(_) =>
  }

  lemma {:induction false} ClaimKeepsApart(p: Pool, frame: Frame, size: Size, newHandle: Handle,
                                           allocOk: bool)
    requires Inv(p) && p.picked.Index? && frame !in p.held
    ensures var q := ClaimSlot(p, frame, size, newHandle, allocOk); HeldApart(q.slots, q.held)
  {
    var q := ClaimSlot(p, frame, size, newHandle, allocOk);
    forall f | f in p.held ensures q.slots[p.held[f]] == p.slots[p.held[f]] {
      assert p.held[f] != p.picked.i;
    }
  }

  lemma {:induction false} ReturnKeepsApart(p: Pool, frame: Frame)
    requires Inv(p) && frame in p.held
    ensures var q := ReturnSlot(p, frame, p.held[frame]); HeldApart(q.slots, q.held)
    ensures var q := ReturnSlot(p, frame, p.held[frame]);
            q.picked.Index? ==> q.slots[q.picked.i].status != Dequeued
  {
  }

  lemma {:induction false} ReturnKeepsTable(slots: seq<Slot>, table: map<Handle, Size>, i: nat)
    requires TableExact(slots, table) && i < |slots| && slots[i].status == Dequeued
    ensures TableExact(slots[i := slots[i].(status := Enqueued)], table)
  {
    var after := slots[i := slots[i].(status := Enqueued)];
    forall h | h in table ensures Owned(after, h) {
      assert Owned(slots, h);
      var k :| 0 <= k < |slots| && slots[k].status != Free && slots[k].handle == h;
      assert after[k].handle == h && after[k].status != Free;
    }
  }

  lemma {:induction false} InvReachable(p: Pool)
    requires Reachable(p)
    ensures Inv(p)
  {
    forall a, b | Inv(a) && Next(a, b) ensures Inv(b) {
      var step :| Enabled(a, step) && b == Apply(a, step);
      InvStep(a, step);
    }
    Runs.Invariant(p, Init, Next, Inv);
  }

  // ---------------------------------------------------------------- the promises

  /** Two requests that hold a slot hold different ones, each dequeued, each backed by a live
      buffer of the slot's size that no other slot shares. */
  lemma {:induction false} SlotsNeverShared(p: Pool, f: Frame, g: Frame)
    requires Reachable(p) && f in p.held && g in p.held && f != g
    ensures p.held[f] != p.held[g]
    ensures p.slots[p.held[f]].status == Dequeued && p.slots[p.held[g]].status == Dequeued
    ensures p.slots[p.held[f]].handle != p.slots[p.held[g]].handle
    ensures p.slots[p.held[f]].handle in p.table
            && p.table[p.slots[p.held[f]].handle] == p.slots[p.held[f]].size
  {
    InvReachable(p);
  }

  /** A handed-out slot has the size that was asked for, and the hand-out touches no other
      holder. */
  lemma {:induction false} ClaimGivesTheSize(p: Pool, step: Step)
    requires Reachable(p) && step.Claim? && Enabled(p, step)
    ensures var q := Apply(p, step);
            step.frame in q.held ==>
              q.held[step.frame] == p.picked.i
              && q.slots[p.picked.i].size == step.size && q.slots[p.picked.i].status == Dequeued
    ensures var q := Apply(p, step);
            forall f :: f in p.held ==>
              f in q.held && q.held[f] == p.held[f]
              && q.slots[q.held[f]] == p.slots[p.held[f]]
  {
    InvReachable(p);
    ClaimExactly(p, step);
    forall f | f in p.held ensures p.held[f] != p.picked.i && f != step.frame {
      assert p.slots[p.held[f]].status == Dequeued;
    }
  }

  /** When a claim succeeds, and what it leaves. A returned slot of the size asked for is handed
      out as it is. Otherwise the slot's buffer, if it has one, is freed, and the slot gets a new
      buffer of that size, or becomes free. */
  lemma {:induction false} ClaimExactly(p: Pool, step: Step)
    requires Reachable(p) && step.Claim? && Enabled(p, step)
    ensures var q, i := Apply(p, step), p.picked.i;
            var slot := p.slots[i];
            var fits := slot.status == Enqueued && slot.size == step.size;
            var rest := if slot.status == Enqueued then p.table - {slot.handle} else p.table;
            && (step.frame in q.held <==> fits || step.allocOk)
            && (if fits then
                  q.slots[i] == Slot(Dequeued, step.size, slot.handle) && q.table == p.table
                else if step.allocOk then
                  && q.slots[i] == Slot(Dequeued, step.size, step.newHandle)
                  && q.table == rest[step.newHandle := step.size]
                else q.slots[i].status == Free && q.table == rest)
  {
    InvReachable(p);
  }

  /** No step of another thread disturbs the slot the client has picked and not yet claimed. */
  lemma {:induction false} PickIsStable(p: Pool, step: Step)
    requires Reachable(p) && p.picked.Index? && Enabled(p, step) && !step.Claim?
    ensures Apply(p, step).picked == p.picked
    ensures Apply(p, step).slots[p.picked.i] == p.slots[p.picked.i]
  {
    InvReachable(p);
  }

  /** Picking fails exactly when every slot is dequeued; else it gives the first returned slot, and
      only without one the first free slot. */
  lemma {:induction false} PickFailsExactly(p: Pool)
    ensures PickIndex(p.slots) < 0
            <==> forall i :: 0 <= i < SLOTS ==> p.slots[i].status == Dequeued
    ensures PickIndex(p.slots) >= 0 ==>
              var i := PickIndex(p.slots);
              && (p.slots[i].status == Enqueued
                  || (p.slots[i].status == Free
                      && forall k :: 0 <= k < SLOTS ==> p.slots[k].status != Enqueued))
              && forall k :: 0 <= k < i ==> p.slots[k].status != p.slots[i].status
  {
  }

  /** The slot is dequeued and nobody holds it. */
  ghost predicate Lost(p: Pool, i: nat) {
    i < SLOTS && p.slots[i].status == Dequeued && forall f :: f in p.held ==> p.held[f] != i
  }

  /** A slot is lost exactly by abandoning it, and a lost slot stays lost: no later step hands it
      out, returns it or frees its buffer. */
  lemma {:induction false} LostExactly(p: Pool, step: Step, i: nat)
    requires Reachable(p) && Enabled(p, step)
    ensures Lost(Apply(p, step), i)
       <==> Lost(p, i)
            || (step.Abandon? && exists f :: f in p.held && f in step.frames && p.held[f] == i)
    ensures Lost(p, i) ==> Apply(p, step).slots[i] == p.slots[i]
  {
    InvReachable(p);
    match step
    case Abandon(frames) => AbandonLoses(p, frames, i);
    case Claim(_, _, _, _) => ClaimLosesNone(p, step, i);
    case Return(frame) => ReturnLosesNone(p, frame, i);
    case Pick =>
  }

  lemma {:induction false} ReturnLosesNone(p: Pool, frame: Frame, i: nat)
    requires Inv(p) && frame in p.held
    ensures var q := Apply(p, Return(frame));
            (Lost(q, i) <==> Lost(p, i)) && (Lost(p, i) ==> q.slots[i] == p.slots[i])
  {
    var q := Apply(p, Return(frame));
    if i < SLOTS && i != p.held[frame] {
      assert q.slots[i] == p.slots[i];
      assert forall f :: f in p.held && p.held[f] == i ==> f in q.held && q.held[f] == i;
    }
  }

  lemma {:induction false} AbandonLoses(p: Pool, frames: set<Frame>, i: nat)
    requires Inv(p)
    ensures Lost(p.(held := p.held - frames), i)
       <==> Lost(p, i) || exists f :: f in p.held && f in frames && p.held[f] == i
  {
    var q := p.(held := p.held - frames);
    if f :| f in p.held && f in frames && p.held[f] == i {
      assert p.slots[i].status == Dequeued;
      assert forall g :: g in q.held ==> g in p.held && g != f && q.held[g] == p.held[g];
    } else if Lost(q, i) {
      forall f | f in p.held ensures p.held[f] != i {
        if f !in frames { assert f in q.held && q.held[f] == p.held[f]; }
      }
    }
  }

  lemma {:induction false} ClaimLosesNone(p: Pool, step: Step, i: nat)
    requires Inv(p) && Enabled(p, step) && step.Claim?
    ensures Lost(Apply(p, step), i) <==> Lost(p, i)
    ensures Lost(p, i) ==> Apply(p, step).slots[i] == p.slots[i]
  {
    var q := Apply(p, step);
    if i < SLOTS && i != p.picked.i { assert q.slots[i] == p.slots[i]; }
    forall f | f in p.held ensures f in q.held && q.held[f] == p.held[f] {}
    if q.slots[p.picked.i].status == Dequeued { assert q.held[step.frame] == p.picked.i; }
  }

  /** Once four slots are lost, no two-output request is ever accepted again. */
  lemma {:induction false} FourLostExhaust(p: Pool)
    requires forall i :: 0 <= i < SLOTS ==> Lost(p, i)
    ensures PickIndex(p.slots) < 0
    ensures forall step :: Reachable(p) && Enabled(p, step) ==>
              forall i :: 0 <= i < SLOTS ==> Lost(Apply(p, step), i)
  {
    forall i | 0 <= i < SLOTS ensures p.slots[i].status == Dequeued { assert Lost(p, i); }
    PickFailsExactly(p);
    forall step | Reachable(p) && Enabled(p, step)
      ensures forall i :: 0 <= i < SLOTS ==> Lost(Apply(p, step), i)
    {
      forall i | 0 <= i < SLOTS ensures Lost(Apply(p, step), i) { LostExactly(p, step, i); }
    }
  }
}
