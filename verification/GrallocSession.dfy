/** The gralloc device and the session's intermediate buffers as code. */
module GrallocSession {
  import opened GrallocPool

  class GrallocDevice {
    var mBuffers: map<Handle, Size>

    constructor ()
      ensures mBuffers == map[]
    {
      mBuffers := map[];
    }

    /** newHandle and ok are what the allocator answers. */
    method Alloc(size: Size, newHandle: Handle, ok: bool)
      requires newHandle !in mBuffers
      modifies this
      ensures mBuffers == if ok then old(mBuffers)[newHandle := size] else old(mBuffers)
    {
      if ok { mBuffers := mBuffers[newHandle := size]; }
    }

    method Release(handle: Handle) returns (ok: bool)
      modifies this
      ensures ok <==> handle in old(mBuffers)
      ensures mBuffers == old(mBuffers) - {handle}
    {
      ok := handle in mBuffers;
      if ok {
        mBuffers := mBuffers - {handle};
      } else {
        assert mBuffers - {handle} == mBuffers;
      }
    }
  }

  class Session {
    const device: GrallocDevice
    const interBuffers: array<Slot>
    ghost var held: map<Frame, SlotIndex>
    ghost var picked: Picked

    ghost predicate Shaped()
      reads this
    {
      interBuffers.Length == SLOTS
    }

    ghost function View(): Pool
      requires Shaped()
      reads this, device, interBuffers
    {
      Pool(interBuffers[..], device.mBuffers, held, picked)
    }

    ghost predicate Valid()
      reads this, device, interBuffers
    {
      Shaped() && Inv(View())
    }

    constructor (device: GrallocDevice)
      requires device.mBuffers == map[]
      ensures Valid() && View() == Init && this.device == device && fresh(interBuffers)
    {
      this.device := device;
      interBuffers := new Slot[4](_ => Unused);
      held, picked := map[], Nothing;
      new;
      assert interBuffers[..] == [Unused, Unused, Unused, Unused];
    }

    method GetGrallocBufferIndex() returns (index: int)
      requires Valid() && picked.Nothing?
      modifies this`picked
      ensures Valid() && View() == Apply(old(View()), Pick)
      ensures index == PickIndex(interBuffers[..])
      ensures index == -1 <==> forall k :: 0 <= k < SLOTS ==> interBuffers[..][k].status == Dequeued
      ensures 0 <= index && interBuffers[..][index].status == Free ==>
                forall k :: 0 <= k < SLOTS ==> interBuffers[..][k].status != Enqueued
      ensures 0 <= index ==>
                forall k :: 0 <= k < index ==>
                  interBuffers[..][k].status != interBuffers[..][index].status
    {
      InvStep(View(), Pick);
      PickFailsExactly(View());
      index := -1;
      for i := 0 to SLOTS
        invariant index == -1
        invariant FirstFrom(interBuffers[..], Enqueued, 0) == FirstFrom(interBuffers[..], Enqueued, i)
      {
        if interBuffers[i].status == Enqueued {
          picked := Index(i);
          return i;
        }
      }
      for i := 0 to SLOTS
        invariant index == -1
        invariant FirstFrom(interBuffers[..], Free, 0) == FirstFrom(interBuffers[..], Free, i)
      {
        if interBuffers[i].status == Free {
          picked := Index(i);
          return i;
        }
      }
    }

    /** The part of processOneCaptureRequest under the second lock: index is the slot picked
        before, and other threads may have returned slots since. */
    method ClaimBuffer(frame: Frame, index: SlotIndex, size: Size, newHandle: Handle, allocOk: bool)
      returns (ok: bool)
      requires Valid() && picked == Index(index) && frame !in held
      requires newHandle !in device.mBuffers
      modifies this, device, interBuffers
      ensures Valid()
      ensures View() == Apply(old(View()), Claim(frame, size, newHandle, allocOk))
      ensures ok <==> frame in held
      ensures ok <==> allocOk || (old(interBuffers[index]).status == Enqueued
                                  && old(interBuffers[index]).size == size)
      ensures ok ==> interBuffers[index].status == Dequeued && interBuffers[index].size == size
    {
      InvStep(View(), Claim(frame, size, newHandle, allocOk));
      ghost var before := View();
      var slot := interBuffers[index];
      picked := Nothing;
      ok := true;
      if slot.status == Free {
        interBuffers[index] := slot.(size := size);
        device.Alloc(size, newHandle, allocOk);
        if !allocOk {
          ok := false;
        } else {
          interBuffers[index] := Slot(Free, size, newHandle);
        }
      } else if slot.size != size {
        var released := device.Release(slot.handle);
        assert released;
        device.Alloc(size, newHandle, allocOk);
        if !allocOk {
          interBuffers[index] := Slot(Free, size, slot.handle);
          ok := false;
        } else {
          interBuffers[index] := Slot(slot.status, size, newHandle);
        }
      }
      if ok {
        interBuffers[index] := interBuffers[index].(status := Dequeued);
        held := held[frame := index];
      }
      assert interBuffers[..] == before.slots[index := interBuffers[index]];
    }

    /** The slot is marked as returned, whatever it was. frame: the request it is called for, which
        holds the slot no longer. If it did hold it, this is the return step. */
    method SetGrallocBufferStatus(ghost frame: Frame, index: SlotIndex)
      requires Shaped()
      modifies this`held, interBuffers
      ensures Shaped() && View() == ReturnSlot(old(View()), frame, index)
      ensures old(Valid()) && frame in old(held) && old(held)[frame] == index ==>
                Valid() && View() == Apply(old(View()), Return(frame))
    {
      ghost var before := View();
      if Valid() && frame in held && held[frame] == index { InvStep(before, Return(frame)); }
      interBuffers[index] := interBuffers[index].(status := Enqueued);
      held := held - {frame};
      assert interBuffers[..] == before.slots[index := interBuffers[index]];
    }

    /** The destructor: only the buffers that nobody holds or has lost are freed. */
    method Destroy()
      requires Valid()
      modifies device
      ensures interBuffers[..] == old(interBuffers[..])
      ensures forall h :: h in device.mBuffers <==>
                exists i :: 0 <= i < SLOTS && interBuffers[..][i].status == Dequeued
                  && interBuffers[..][i].handle == h
    {
      ghost var table := device.mBuffers;
      for i := 0 to SLOTS
        invariant forall h :: h in device.mBuffers <==>
                    h in table && forall k :: 0 <= k < i && interBuffers[k].status == Enqueued
                                    ==> interBuffers[k].handle != h
      {
        if interBuffers[i].status == Enqueued {
          var released := device.Release(interBuffers[i].handle);
          assert released;
        }
      }
      OnlyDequeuedLeft(interBuffers[..], table, device.mBuffers);
      assert forall i :: 0 <= i < SLOTS ==> interBuffers[..][i] == interBuffers[i];
    }
  }

  /** With the handles of all returned slots freed, those of the dequeued ones are left. */
  lemma {:induction false} OnlyDequeuedLeft(slots: seq<Slot>, before: map<Handle, Size>,
                                            after: map<Handle, Size>)
    requires TableExact(slots, before)
    requires forall h :: h in after <==>
               h in before && forall k :: 0 <= k < |slots| && slots[k].status == Enqueued
                                ==> slots[k].handle != h
    ensures forall h :: h in after <==>
              exists i :: 0 <= i < |slots| && slots[i].status == Dequeued && slots[i].handle == h
  {
    forall h
      ensures h in after <==>
                exists i :: 0 <= i < |slots| && slots[i].status == Dequeued && slots[i].handle == h
    {
      if h in after {
        assert Owned(slots, h);
        var i :| 0 <= i < |slots| && slots[i].status != Free && slots[i].handle == h;
        assert slots[i].status == Dequeued;
      }
    }
  }
}
