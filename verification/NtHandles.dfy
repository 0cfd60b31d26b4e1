/** Handle tables, and how many handles over all processes name an object. */
module NtHandles {
  import opened Common

  datatype HandleEntry = HandleEntry(objectId: nat, access: nat)

  datatype UserProcess = UserProcess(handles: seq<Option<HandleEntry>>, processObject: nat, threadObject: nat)

  function EmptyProcess(): UserProcess {
    UserProcess([], 0, 0)
  }

  const USIZE_MAX: nat := 0xFFFF_FFFF_FFFF_FFFF

  /** `slot_to_handle`. */
  function SlotToHandle(slot: nat): nat {
    (slot + 1) * 4
  }

  /** `handle_to_slot`; None stands for an invalid handle. */
  function HandleToSlot(handle: nat): Option<nat> {
    if handle == 0 || handle % 4 != 0 then None else Some(SaturatingSub(handle / 4, 1))
  }

  /** The two are inverse, and exactly the multiples of four from 4 up are handles. */
  lemma HandlesAreSlots(slot: nat, handle: nat)
    ensures HandleToSlot(SlotToHandle(slot)) == Some(slot)
    ensures HandleToSlot(handle).Some? <==> handle > 0 && handle % 4 == 0
    ensures HandleToSlot(handle).Some? ==> SlotToHandle(HandleToSlot(handle).value) == handle
  {
  }

  function One(e: Option<HandleEntry>, id: nat): nat {
    if e.Some? && e.value.objectId == id then 1 else 0
  }

  /** How many handles of a table name an object. */
  function CountIn(handles: seq<Option<HandleEntry>>, id: nat): nat {
    if handles == [] then 0 else CountIn(handles[..|handles| - 1], id) + One(handles[|handles| - 1], id)
  }

  lemma {:induction false} CountUpdate(handles: seq<Option<HandleEntry>>, i: nat, e: Option<HandleEntry>, id: nat)
    requires i < |handles|
    ensures CountIn(handles[i := e], id) == CountIn(handles, id) - One(handles[i], id) + One(e, id)
  {
    var n := |handles| - 1;
    if i == n {
      assert handles[i := e][..n] == handles[..n];
    } else {
      assert handles[i := e][..n] == handles[..n][i := e];
      CountUpdate(handles[..n], i, e, id);
    }
  }

  lemma {:induction false} CountMember(handles: seq<Option<HandleEntry>>, i: nat, id: nat)
    requires i < |handles| && One(handles[i], id) == 1
    ensures CountIn(handles, id) >= 1
  {
    if i < |handles| - 1 { CountMember(handles[..|handles| - 1], i, id); }
  }

  lemma {:induction false} CountNone(handles: seq<Option<HandleEntry>>, id: nat)
    requires forall i :: 0 <= i < |handles| ==> handles[i].None?
    ensures CountIn(handles, id) == 0
  {
    if handles != [] { CountNone(handles[..|handles| - 1], id); }
  }

  function CountSlots(slots: seq<UserProcess>, id: nat): nat {
    if slots == [] then 0 else CountSlots(slots[..|slots| - 1], id) + CountIn(slots[|slots| - 1].handles, id)
  }

  lemma {:induction false} SlotsUpdate(slots: seq<UserProcess>, cpu: nat, p: UserProcess, id: nat)
    requires cpu < |slots|
    ensures CountSlots(slots[cpu := p], id)
            == CountSlots(slots, id) - CountIn(slots[cpu].handles, id) + CountIn(p.handles, id)
  {
    var n := |slots| - 1;
    if cpu == n {
      assert slots[cpu := p][..n] == slots[..n];
    } else {
      assert slots[cpu := p][..n] == slots[..n][cpu := p];
      SlotsUpdate(slots[..n], cpu, p, id);
    }
  }

  const PIDS: nat := 0x1_0000_0000

  function Parked(byPid: map<nat, UserProcess>, pid: nat, id: nat): nat {
    if pid in byPid then CountIn(byPid[pid].handles, id) else 0
  }

  /** Handles of the processes that are not running, by pid. */
  function CountParked(byPid: map<nat, UserProcess>, id: nat, n: nat): nat {
    if n == 0 then 0 else CountParked(byPid, id, n - 1) + Parked(byPid, n - 1, id)
  }

  lemma {:induction false} ParkedUpdate(a: map<nat, UserProcess>, b: map<nat, UserProcess>, pid: nat, id: nat, n: nat)
    requires forall q :: q != pid ==> (q in a <==> q in b) && (q in a ==> a[q] == b[q])
    ensures CountParked(b, id, n)
            == CountParked(a, id, n) + (if pid < n then Parked(b, pid, id) - Parked(a, pid, id) else 0)
  {
    if n > 0 { ParkedUpdate(a, b, pid, id, n - 1); }
  }

  /** All handles that name an object. */
  function Holders(slots: seq<UserProcess>, byPid: map<nat, UserProcess>, id: nat): nat {
    CountSlots(slots, id) + CountParked(byPid, id, PIDS)
  }
}
