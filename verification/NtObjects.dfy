/** The object manager: names, reference counts, and the handles that hold them. */
module NtObjects {
  import opened Common
  import opened NtHandles

  datatype NtStatus = InvalidHandle | ObjectNameCollision | ObjectNameNotFound | ObjectTypeMismatch | AccessDenied

  /** Kinds whose data the counts do not depend on. */
  datatype OtherKind = Key | Section | Process | Thread | Event

  datatype ObjectType = DirectoryType | SymbolicLinkType | FileType | OtherType(kind: OtherKind)

  datatype ObjectData =
    | DirectoryData
    | SymbolicLinkData(target: string)
    | FileData(vfsHandle: nat)
    | OtherData(kind: OtherKind)

  function TypeOf(data: ObjectData): ObjectType {
    match data
    case DirectoryData => DirectoryType
    case SymbolicLinkData(_) => SymbolicLinkType
    case FileData(_) => FileType
    case OtherData(kind) => OtherType(kind)
  }

  const SECTION: ObjectType := OtherType(Section)

  const KNOWN_DLLS: string := "\\KnownDlls\\"

  /** A name below `KnownDlls` whose last component is not empty. */
  predicate IsKnownDll(name: string) {
    KNOWN_DLLS <= name && name[|name| - 1] != '\\'
  }

  datatype ObjectRecord = ObjectRecord(name: Option<string>, refs: nat, data: ObjectData)

  type Objects = map<nat, ObjectRecord>

  const ID_LIMIT: nat := 0xFFFF_FFFF

  function Refs(objects: Objects, id: nat): nat {
    if id in objects then objects[id].refs else 0
  }

  // ----- the invariant --------------------------------------------------------------------------------

  ghost predicate NamesOk(objects: Objects, named: map<string, nat>) {
    && (forall n <- named :: named[n] in objects && objects[named[n]].name == Some(n))
    && (forall id <- objects :: objects[id].name.Some? ==>
        objects[id].name.value in named && named[objects[id].name.value] == id)
  }

  ghost predicate IdsOk(objects: Objects, nextId: nat) {
    forall id <- objects :: id < nextId && objects[id].refs > 0
  }

  /** Each object's count is the number of handles that name it and of references held elsewhere. */
  ghost predicate RefsCounted(
      objects: Objects, slots: seq<UserProcess>, byPid: map<nat, UserProcess>, others: multiset<nat>) {
    forall id: nat :: Holders(slots, byPid, id) + others[id] == Refs(objects, id)
  }

  /** Every file object ever made is alive with its descriptor open, or gone with it closed, once. */
  ghost predicate FilesOk(objects: Objects, files: map<nat, nat>, closed: seq<nat>, closedFds: seq<nat>, nextId: nat) {
    && (forall id <- files ::
          id < nextId && ((id in objects && objects[id].data == FileData(files[id])) <==> id !in closed))
    && (forall id <- objects :: objects[id].data.FileData? ==> id in files && files[id] == objects[id].data.vfsHandle)
    && (forall i, j :: 0 <= i < j < |closed| ==> closed[i] != closed[j])
    && |closed| == |closedFds|
    && (forall i :: 0 <= i < |closed| ==> closed[i] in files && closedFds[i] == files[closed[i]])
  }

  /** A handle in a table names an object that exists. */
  lemma HolderExists(
      objects: Objects, slots: seq<UserProcess>, byPid: map<nat, UserProcess>, others: multiset<nat>, cpu: nat,
      slot: nat)
    requires RefsCounted(objects, slots, byPid, others) && cpu < |slots| && slot < |slots[cpu].handles|
    requires slots[cpu].handles[slot].Some?
    ensures slots[cpu].handles[slot].value.objectId in objects
  {
    hide CountIn, CountSlots, CountParked;
    var id := slots[cpu].handles[slot].value.objectId;
    CountMember(slots[cpu].handles, slot, id);
    CountNone([], id);
    SlotsUpdate(slots, cpu, EmptyProcess(), id);
    assert Holders(slots, byPid, id) >= 1;
  }

  /** So does a handle of a process that is not running. */
  lemma ParkedHolderExists(
      objects: Objects, slots: seq<UserProcess>, byPid: map<nat, UserProcess>, others: multiset<nat>, pid: nat,
      slot: nat)
    requires RefsCounted(objects, slots, byPid, others) && pid in byPid && pid < PIDS
    requires slot < |byPid[pid].handles| && byPid[pid].handles[slot].Some?
    ensures byPid[pid].handles[slot].value.objectId in objects
  {
    hide CountIn, CountSlots, CountParked;
    var id := byPid[pid].handles[slot].value.objectId;
    CountMember(byPid[pid].handles, slot, id);
    ParkedUpdate(byPid, byPid - {pid}, pid, id, PIDS);
    assert Holders(slots, byPid, id) >= 1;
  }

  // ----- a fresh object ----------------------------------------------------------------------------------

  ghost function NamedWith(named: map<string, nat>, record: ObjectRecord, id: nat): map<string, nat> {
    if record.name.Some? then named[record.name.value := id] else named
  }

  ghost function FilesWith(files: map<nat, nat>, record: ObjectRecord, id: nat): map<nat, nat> {
    if record.data.FileData? then files[id := record.data.vfsHandle] else files
  }

  lemma FreshNames(objects: Objects, named: map<string, nat>, nextId: nat, record: ObjectRecord)
    requires NamesOk(objects, named) && IdsOk(objects, nextId) && (record.name.Some? ==> record.name.value !in named)
    ensures NamesOk(objects[nextId := record], NamedWith(named, record, nextId))
  {
    assert nextId !in objects;
  }

  lemma FreshFiles(
      objects: Objects, files: map<nat, nat>, closed: seq<nat>, closedFds: seq<nat>, nextId: nat,
      record: ObjectRecord)
    requires FilesOk(objects, files, closed, closedFds, nextId) && IdsOk(objects, nextId)
    ensures FilesOk(objects[nextId := record], FilesWith(files, record, nextId), closed, closedFds, nextId + 1)
  {
    assert nextId !in objects && nextId !in files && nextId !in closed;
  }

  lemma FreshRefs(
      objects: Objects, slots: seq<UserProcess>, byPid: map<nat, UserProcess>, others: multiset<nat>,
      record: ObjectRecord, nextId: nat)
    requires IdsOk(objects, nextId) && record.refs == 1 && RefsCounted(objects, slots, byPid, others)
    ensures IdsOk(objects[nextId := record], nextId + 1)
    ensures RefsCounted(objects[nextId := record], slots, byPid, others + multiset{nextId})
  {
    hide Holders;
    assert Refs(objects, nextId) == 0;
    assert Holders(slots, byPid, nextId) + others[nextId] == 0;
  }

  // ----- counts up and down ---------------------------------------------------------------------------------

  function SetRefs(objects: Objects, id: nat, refs: nat): Objects
    requires id in objects
  {
    objects[id := objects[id].(refs := refs)]
  }

  /** Names and files do not depend on counts. */
  lemma CountsAside(
      objects: Objects, named: map<string, nat>, nextId: nat, files: map<nat, nat>, closed: seq<nat>,
      closedFds: seq<nat>, id: nat, refs: nat)
    requires NamesOk(objects, named) && IdsOk(objects, nextId)
    requires FilesOk(objects, files, closed, closedFds, nextId) && id in objects && refs > 0
    ensures var objects' := SetRefs(objects, id, refs);
            NamesOk(objects', named) && IdsOk(objects', nextId) && FilesOk(objects', files, closed, closedFds, nextId)
  {
    var objects' := SetRefs(objects, id, refs);
    assert objects'.Keys == objects.Keys;
    assert forall k <- objects :: objects'[k].name == objects[k].name && objects'[k].data == objects[k].data;
  }

  lemma BumpRefs(
      objects: Objects, slots: seq<UserProcess>, byPid: map<nat, UserProcess>, others: multiset<nat>, id: nat)
    requires RefsCounted(objects, slots, byPid, others) && id in objects
    ensures RefsCounted(SetRefs(objects, id, objects[id].refs + 1), slots, byPid, others + multiset{id})
  {
    hide Holders;
  }

  /** Releasing a reference held elsewhere. */
  lemma DropRefs(
      objects: Objects, slots: seq<UserProcess>, byPid: map<nat, UserProcess>, others: multiset<nat>, id: nat)
    requires RefsCounted(objects, slots, byPid, others) && id in others
    ensures id in objects
    ensures objects[id].refs > 1 ==>
            RefsCounted(SetRefs(objects, id, objects[id].refs - 1), slots, byPid, others - multiset{id})
    ensures objects[id].refs == 1 ==> RefsCounted(objects - {id}, slots, byPid, others - multiset{id})
  {
    hide Holders;
    assert Holders(slots, byPid, id) + others[id] == Refs(objects, id);
  }

  ghost function Unnamed(named: map<string, nat>, record: ObjectRecord): map<string, nat> {
    if record.name.Some? then named - {record.name.value} else named
  }

  lemma GoneNames(objects: Objects, named: map<string, nat>, nextId: nat, id: nat)
    requires NamesOk(objects, named) && IdsOk(objects, nextId) && id in objects
    ensures NamesOk(objects - {id}, Unnamed(named, objects[id])) && IdsOk(objects - {id}, nextId)
  {
  }

  /** The last reference to a file goes, and its descriptor is closed for the first time. */
  lemma GoneFiles(objects: Objects, files: map<nat, nat>, closed: seq<nat>, closedFds: seq<nat>, nextId: nat, id: nat)
    requires FilesOk(objects, files, closed, closedFds, nextId) && id in objects
    ensures if objects[id].data.FileData?
            then FilesOk(objects - {id}, files, closed + [id], closedFds + [objects[id].data.vfsHandle], nextId)
            else FilesOk(objects - {id}, files, closed, closedFds, nextId)
  {
    if objects[id].data.FileData? {
      assert id in files && id !in closed;
      assert forall k :: k in closed + [id] <==> k in closed || k == id;
    } else {
      assert id in files ==> id in closed;
    }
  }

  // ----- handle tables --------------------------------------------------------------------------------------

  /** Putting a handle in an empty place, or at the end, turns a caller's reference into the handle's. */
  lemma InstallCounted(
      objects: Objects, slots: seq<UserProcess>, byPid: map<nat, UserProcess>, others: multiset<nat>, cpu: nat,
      p: UserProcess, id: nat)
    requires cpu < |slots| && RefsCounted(objects, slots, byPid, others + multiset{id})
    requires forall k: nat :: CountIn(p.handles, k) == CountIn(slots[cpu].handles, k) + (if k == id then 1 else 0)
    ensures RefsCounted(objects, slots[cpu := p], byPid, others)
  {
    hide CountIn, CountSlots, CountParked, Refs;
    forall k: nat ensures Holders(slots[cpu := p], byPid, k) + others[k] == Refs(objects, k) {
      SlotsUpdate(slots, cpu, p, k);
      assert Holders(slots, byPid, k) + (others + multiset{id})[k] == Refs(objects, k);
    }
  }

  /** Taking handles out of a table leaves their references due. */
  lemma TakeCounted(
      objects: Objects, slots: seq<UserProcess>, byPid: map<nat, UserProcess>, others: multiset<nat>, cpu: nat,
      p: UserProcess, due: multiset<nat>)
    requires cpu < |slots| && RefsCounted(objects, slots, byPid, others)
    requires forall k: nat :: CountIn(p.handles, k) + due[k] == CountIn(slots[cpu].handles, k)
    ensures RefsCounted(objects, slots[cpu := p], byPid, others + due)
  {
    hide CountIn, CountSlots, CountParked, Refs;
    forall k: nat ensures Holders(slots[cpu := p], byPid, k) + (others + due)[k] == Refs(objects, k) {
      SlotsUpdate(slots, cpu, p, k);
      assert Holders(slots, byPid, k) + others[k] == Refs(objects, k);
    }
  }

  /** Every count but one is kept, and that one goes down by one. */
  ghost predicate LostOne(objects: Objects, objects': Objects, id: nat) {
    && (forall k: nat :: Refs(objects', k) == Refs(objects, k) - (if k == id then 1 else 0))
    && (forall k <- objects' :: k in objects && objects'[k] == objects[k].(refs := objects'[k].refs))
  }

  lemma OtherExists(
      objects: Objects, slots: seq<UserProcess>, byPid: map<nat, UserProcess>, others: multiset<nat>, id: nat)
    requires RefsCounted(objects, slots, byPid, others) && id in others
    ensures id in objects
  {
    hide Holders;
    assert Holders(slots, byPid, id) + others[id] == Refs(objects, id);
  }

  // ----- switching processes ------------------------------------------------------------------------------

  function Park(slots: seq<UserProcess>, byPid: map<nat, UserProcess>, cpu: nat, pid: nat): map<nat, UserProcess>
    requires cpu < |slots|
  {
    if pid == 0 then byPid else byPid[pid := slots[cpu]]
  }

  /** Where a switch leaves the slots, the parked processes and the active pids. */
  function Switched(slots: seq<UserProcess>, byPid: map<nat, UserProcess>, active: seq<nat>, cpu: nat, pid: Option<nat>)
    : (seq<UserProcess>, map<nat, UserProcess>, seq<nat>)
    requires cpu < |slots| == |active|
  {
    var next := if pid.Some? then pid.value else 0;
    var parked := Park(slots, byPid, cpu, active[cpu]);
    if active[cpu] == next then (slots, byPid, active)
    else if pid.Some? && next in parked then (slots[cpu := parked[next]], parked - {next}, active[cpu := next])
    else (slots[cpu := EmptyProcess()], parked, active[cpu := 0])
  }

  /** The running process is not parked as well, and an idle CPU has no handles. */
  ghost predicate CleanSwitch(slots: seq<UserProcess>, byPid: map<nat, UserProcess>, active: seq<nat>, cpu: nat)
    requires cpu < |slots| == |active|
  {
    if active[cpu] == 0 then slots[cpu].handles == [] else active[cpu] !in byPid
  }

  /** The references of the table a switch overwrites, which nothing releases any more. */
  ghost function Overwritten(
      slots: seq<UserProcess>, byPid: map<nat, UserProcess>, active: seq<nat>, cpu: nat, pid: Option<nat>)
    : multiset<nat>
    requires cpu < |slots| == |active|
  {
    if active[cpu] == (if pid.Some? then pid.value else 0) then multiset{}
    else if active[cpu] == 0 then multiset(IdsOf(slots[cpu].handles))
    else if active[cpu] in byPid then multiset(IdsOf(byPid[active[cpu]].handles))
    else multiset{}
  }

  /** A switch makes no handle, and loses exactly those of a table it overwrites. */
  lemma SwitchCounts(
      slots: seq<UserProcess>, byPid: map<nat, UserProcess>, active: seq<nat>, cpu: nat, pid: Option<nat>, id: nat)
    requires cpu < |slots| == |active| && active[cpu] < PIDS && (pid.Some? ==> 0 < pid.value < PIDS)
    ensures var (s, b, a) := Switched(slots, byPid, active, cpu, pid);
            Holders(s, b, id) + Overwritten(slots, byPid, active, cpu, pid)[id] == Holders(slots, byPid, id)
  {
    hide CountIn, CountSlots, CountParked, IdsOf;
    var parked := Park(slots, byPid, cpu, active[cpu]);
    CountNone([], id);
    IdsCount(slots[cpu].handles, id);
    if active[cpu] in byPid { IdsCount(byPid[active[cpu]].handles, id); }
    ParkedUpdate(byPid, parked, active[cpu], id, PIDS);
    SlotsUpdate(slots, cpu, EmptyProcess(), id);
    if pid.Some? && pid.value in parked {
      SlotsUpdate(slots, cpu, parked[pid.value], id);
      ParkedUpdate(parked, parked - {pid.value}, pid.value, id, PIDS);
    }
  }

  /** The counts stay exact if what was overwritten is counted as lost. */
  lemma SwitchCounted(
      objects: Objects, slots: seq<UserProcess>, byPid: map<nat, UserProcess>, active: seq<nat>, cpu: nat,
      pid: Option<nat>, pins: multiset<nat>, lost: multiset<nat>)
    requires cpu < |slots| == |active| && active[cpu] < PIDS && (pid.Some? ==> 0 < pid.value < PIDS)
    requires RefsCounted(objects, slots, byPid, pins + lost + multiset{})
    ensures var (s, b, a) := Switched(slots, byPid, active, cpu, pid);
            RefsCounted(objects, s, b, pins + (lost + Overwritten(slots, byPid, active, cpu, pid)) + multiset{})
  {
    hide Holders, Refs, Switched, Overwritten;
    var (s, b, a) := Switched(slots, byPid, active, cpu, pid);
    var over := Overwritten(slots, byPid, active, cpu, pid);
    forall k: nat ensures Holders(s, b, k) + (pins + (lost + over) + multiset{})[k] == Refs(objects, k) {
      SwitchCounts(slots, byPid, active, cpu, pid, k);
      assert Holders(slots, byPid, k) + (pins + lost + multiset{})[k] == Refs(objects, k);
    }
  }

  /** A clean switch overwrites nothing, and neither does one to the process that runs already. */
  lemma SwitchKeeps(
      slots: seq<UserProcess>, byPid: map<nat, UserProcess>, active: seq<nat>, cpu: nat, pid: Option<nat>)
    requires cpu < |slots| == |active|
    ensures CleanSwitch(slots, byPid, active, cpu) || active[cpu] == (if pid.Some? then pid.value else 0) ==>
              Overwritten(slots, byPid, active, cpu, pid) == multiset{}
  {
  }

  class NtState {
    var nextId: nat
    var objects: Objects
    var named: map<string, nat>
    /** The running process of each CPU, its pid (0 for none), and the processes not running. */
    var slots: seq<UserProcess>
    var activePids: seq<nat>
    var byPid: map<nat, UserProcess>
    /** The descriptors given to `vfs::close`, in order. */
    var closedFds: seq<nat>
    /** The objects they belonged to. */
    ghost var closed: seq<nat>
    /** The descriptor of every file object ever made. */
    ghost var files: map<nat, nat>
    /** References held outside handle tables. */
    ghost var pins: multiset<nat>
    /** References of tables that a switch overwrote. */
    ghost var lost: multiset<nat>

    ghost predicate ValidBut(due: multiset<nat>)
      reads this
    {
      && |activePids| == |slots|
      && NamesOk(objects, named) && IdsOk(objects, nextId)
      && RefsCounted(objects, slots, byPid, pins + lost + due)
      && FilesOk(objects, files, closed, closedFds, nextId)
    }

    ghost predicate Valid()
      reads this
    {
      ValidBut(multiset{})
    }

    constructor (cpus: nat)
      ensures Valid() && |slots| == cpus && objects == map[] && closedFds == [] && lost == multiset{}
    {
      nextId, objects, named, byPid, closedFds := 1, map[], map[], map[], [];
      slots, activePids := seq(cpus, _ => EmptyProcess()), seq(cpus, _ => 0);
      closed, files, pins, lost := [], map[], multiset{}, multiset{};
      new;
      forall id: nat ensures Holders(slots, byPid, id) == 0 {
        NoHandles(slots, id);
        NoParked(id, PIDS);
      }
    }

    /** `insert_unnamed`: a fresh object, with one reference for the caller. */
    method InsertUnnamed(data: ObjectData) returns (id: nat)
      requires Valid() && nextId < ID_LIMIT
      modifies this
      ensures lost == old(lost)
      ensures Valid() && id == old(nextId) && id !in old(objects) && nextId == old(nextId) + 1
      ensures objects == old(objects)[id := ObjectRecord(None, 1, data)] && named == old(named)
      ensures pins == old(pins) + multiset{id} && slots == old(slots) && byPid == old(byPid)
      ensures closedFds == old(closedFds)
      ensures activePids == old(activePids)
      ensures files == if data.FileData? then old(files)[id := data.vfsHandle] else old(files)
    {
      hide Holders, NamesOk, IdsOk, RefsCounted, FilesOk;
      id := nextId;
      var record := ObjectRecord(None, 1, data);
      FreshIds(objects, nextId);
      FreshNames(objects, named, nextId, record);
      FreshFiles(objects, files, closed, closedFds, nextId, record);
      FreshRefs(objects, slots, byPid, pins + lost + multiset{}, record, nextId);
      nextId := nextId + 1;
      objects := objects[id := record];
      assert pins + lost + multiset{} + multiset{id} == pins + multiset{id} + lost + multiset{};
      pins := pins + multiset{id};
      if data.FileData? {
        files := files[id := data.vfsHandle];
      }
    }

    /** `create_named`: fails exactly when the name is taken. */
    method CreateNamed(name: string, data: ObjectData) returns (r: Result<nat, NtStatus>)
      requires Valid() && nextId < ID_LIMIT
      modifies this
      ensures lost == old(lost)
      ensures Valid() && slots == old(slots) && byPid == old(byPid) && closedFds == old(closedFds)
      ensures activePids == old(activePids)
      ensures r.Ok? <==> name !in old(named)
      ensures r.Err? ==>
              r.error == ObjectNameCollision && objects == old(objects) && named == old(named) && pins == old(pins)
      ensures r.Ok? ==> r.value == old(nextId) && r.value !in old(objects)
      ensures r.Ok? ==>
              objects == old(objects)[r.value := ObjectRecord(Some(name), 1, data)]
                  && named == old(named)[name := r.value]
      ensures r.Ok? ==> pins == old(pins) + multiset{r.value}
    {
      hide Holders, NamesOk, IdsOk, RefsCounted, FilesOk;
      if name in named {
        return Err(ObjectNameCollision);
      }
      var id := nextId;
      var record := ObjectRecord(Some(name), 1, data);
      FreshIds(objects, nextId);
      FreshNames(objects, named, nextId, record);
      FreshFiles(objects, files, closed, closedFds, nextId, record);
      FreshRefs(objects, slots, byPid, pins + lost + multiset{}, record, nextId);
      nextId := nextId + 1;
      objects := objects[id := record];
      named := named[name := id];
      assert pins + lost + multiset{} + multiset{id} == pins + multiset{id} + lost + multiset{};
      pins := pins + multiset{id};
      if data.FileData? {
        files := files[id := data.vfsHandle];
      }
      return Ok(id);
    }

    /** `open_directory` and `open_symbolic_link`, and what `open_section` does with a name it finds. */
    method OpenNamed(name: string, wanted: ObjectType) returns (r: Result<nat, NtStatus>)
      requires Valid()
      modifies this
      ensures lost == old(lost)
      ensures Valid() && named == old(named) && slots == old(slots) && byPid == old(byPid)
      ensures closedFds == old(closedFds)
      ensures r.Ok? <==> name in old(named) && TypeOf(old(objects)[old(named)[name]].data) == wanted
      ensures r.Ok? ==> r.value == old(named)[name] && pins == old(pins) + multiset{r.value}
      ensures r.Ok? ==> objects == SetRefs(old(objects), r.value, old(objects)[r.value].refs + 1)
      ensures r.Err? ==> objects == old(objects) && pins == old(pins)
      ensures r.Err? ==> r.error == if name in old(named) then ObjectTypeMismatch else ObjectNameNotFound
    {
      hide Holders, NamesOk, IdsOk, RefsCounted, FilesOk;
      NamedExist(objects, named);
      if name !in named {
        return Err(ObjectNameNotFound);
      }
      var id := named[name];
      if TypeOf(objects[id].data) != wanted {
        return Err(ObjectTypeMismatch);
      }
      CountsAside(objects, named, nextId, files, closed, closedFds, id, objects[id].refs + 1);
      BumpRefs(objects, slots, byPid, pins + lost + multiset{}, id);
      objects := SetRefs(objects, id, objects[id].refs + 1);
      assert pins + lost + multiset{} + multiset{id} == pins + multiset{id} + lost + multiset{};
      pins := pins + multiset{id};
      return Ok(id);
    }

    /**
     `open_section`: a section that exists is opened; a known DLL that does not is created, with one reference
     for the caller and one that stays.  `refused` is why its file cannot be resolved, if it cannot.
     */
    method OpenSection(name: string, refused: Option<NtStatus>) returns (r: Result<nat, NtStatus>)
      requires Valid() && (name !in named && IsKnownDll(name) ==> nextId < ID_LIMIT)
      modifies this
      ensures lost == old(lost)
      ensures Valid() && slots == old(slots) && byPid == old(byPid) && closedFds == old(closedFds)
      ensures name in old(named) ==>
              named == old(named) && (r.Ok? <==> TypeOf(old(objects)[old(named)[name]].data) == SECTION)
      ensures name in old(named) && r.Ok? ==>
                && r.value == old(named)[name] && pins == old(pins) + multiset{r.value}
                && objects == SetRefs(old(objects), r.value, old(objects)[r.value].refs + 1)
      ensures name !in old(named) ==> (r.Ok? <==> IsKnownDll(name) && refused.None?)
      ensures name !in old(named) && r.Ok? ==>
                && r.value == old(nextId) && r.value !in old(objects) && pins == old(pins) + multiset{r.value, r.value}
                && objects == old(objects)[r.value := ObjectRecord(Some(name), 2, OtherData(Section))]
                && named == old(named)[name := r.value]
      ensures r.Err? ==> objects == old(objects) && named == old(named) && pins == old(pins)
      ensures r.Err? ==> r.error == if name in old(named) then ObjectTypeMismatch
                                    else if IsKnownDll(name) then refused.value else ObjectNameNotFound
    {
      hide Holders, NamesOk, IdsOk, RefsCounted, FilesOk, IsKnownDll;
      if name in named {
        r := OpenNamed(name, SECTION);
        return;
      }
      if !IsKnownDll(name) {
        return Err(ObjectNameNotFound);
      }
      if refused.Some? {
        return Err(refused.value);
      }
      var created := CreateNamed(name, OtherData(Section));
      var retained := Retain(created.value);
      r := created;
    }

    /** `retain`; the new reference is the caller's. */
    method Retain(id: nat) returns (r: Result<(), NtStatus>)
      requires Valid()
      modifies this
      ensures lost == old(lost)
      ensures Valid() && named == old(named) && slots == old(slots) && byPid == old(byPid)
      ensures activePids == old(activePids)
      ensures closedFds == old(closedFds) && nextId == old(nextId)
      ensures r.Ok? <==> id in old(objects)
      ensures r.Ok? ==> pins == old(pins) + multiset{id}
      ensures r.Ok? ==> objects == SetRefs(old(objects), id, old(objects)[id].refs + 1)
      ensures r.Err? ==> r.error == InvalidHandle && objects == old(objects) && pins == old(pins)
    {
      hide Holders, NamesOk, IdsOk, RefsCounted, FilesOk;
      if id !in objects {
        return Err(InvalidHandle);
      }
      CountsAside(objects, named, nextId, files, closed, closedFds, id, objects[id].refs + 1);
      BumpRefs(objects, slots, byPid, pins + lost + multiset{}, id);
      objects := SetRefs(objects, id, objects[id].refs + 1);
      assert pins + lost + multiset{} + multiset{id} == pins + multiset{id} + lost + multiset{};
      pins := pins + multiset{id};
      return Ok(());
    }

    /** `release` of a reference that is due: the object goes with its last one, and then a file is closed. */
    method Release(id: nat, ghost due: multiset<nat>) returns (r: Result<(), NtStatus>)
      requires ValidBut(due) && (id in objects ==> id in due)
      modifies this
      ensures lost == old(lost)
      ensures slots == old(slots) && byPid == old(byPid) && activePids == old(activePids) && pins == old(pins)
      ensures nextId == old(nextId)
      ensures r.Ok? <==> id in old(objects)
      ensures r.Err? ==>
              r.error == InvalidHandle && objects == old(objects) && closedFds == old(closedFds) && ValidBut(due)
      ensures r.Ok? ==> ValidBut(due - multiset{id}) && LostOne(old(objects), objects, id)
      ensures r.Ok? ==> (id in objects <==> old(objects)[id].refs > 1)
      ensures r.Ok? ==> closedFds == if old(objects)[id].refs == 1 && old(objects)[id].data.FileData?
                                     then old(closedFds) + [old(objects)[id].data.vfsHandle] else old(closedFds)
    {
      hide Holders, NamesOk, IdsOk, RefsCounted, FilesOk;
      if id !in objects {
        return Err(InvalidHandle);
      }
      var record := objects[id];
      CountedRefs(objects, nextId, id);
      DropRefs(objects, slots, byPid, pins + lost + due, id);
      assert pins + lost + due - multiset{id} == pins + lost + (due - multiset{id});
      if record.refs > 1 {
        CountsAside(objects, named, nextId, files, closed, closedFds, id, record.refs - 1);
        objects := SetRefs(objects, id, record.refs - 1);
        return Ok(());
      }
      GoneNames(objects, named, nextId, id);
      GoneFiles(objects, files, closed, closedFds, nextId, id);
      objects := objects - {id};
      if record.name.Some? {
        named := named - {record.name.value};
      }
      if record.data.FileData? {
        closedFds := closedFds + [record.data.vfsHandle];
        closed := closed + [id];
      }
      return Ok(());
    }

    /** `install_handle`: the first empty place of the table, or a new one at its end. */
    method InstallHandle(cpu: nat, id: nat, access: nat) returns (r: Result<nat, NtStatus>)
      requires Valid() && cpu < |slots|
      modifies this
      ensures lost == old(lost)
      ensures Valid() && named == old(named) && byPid == old(byPid) && pins == old(pins)
      ensures closedFds == old(closedFds) && |slots| == |old(slots)|
      ensures r.Ok? <==> id in old(objects)
      ensures r.Err? ==> r.error == InvalidHandle && objects == old(objects) && slots == old(slots)
      ensures r.Ok? ==> objects == SetRefs(old(objects), id, old(objects)[id].refs + 1)
      ensures r.Ok? ==>
              exists i :: Placed(old(slots)[cpu].handles, i, HandleEntry(id, access), slots[cpu].handles)
                  && r.value == SlotToHandle(i)
                                    && slots == old(slots)[cpu := old(slots)[cpu].(handles := slots[cpu].handles)]
    {
      hide Holders, NamesOk, IdsOk, RefsCounted, FilesOk, CountIn;
      ghost var mine := pins;
      var kept := Retain(id);
      if kept.Err? {
        return Err(kept.error);
      }
      var handles := slots[cpu].handles;
      var entry := HandleEntry(id, access);
      var i: nat := 0;
      while i < |handles| && handles[i].Some?
        invariant forall j :: 0 <= j < i && j < |handles| ==> handles[j].Some?
        invariant i <= |handles|
      {
        i := i + 1;
      }
      var table := if i < |handles| then handles[i := Some(entry)] else handles + [Some(entry)];
      assert Placed(handles, i, entry, table);
      forall k: nat
        ensures CountIn(table, k) == CountIn(handles, k) + (if k == id then 1 else 0)
      {
        PlacedCount(handles, i, entry, table, k);
      }
      assert pins + lost + multiset{} == mine + lost + multiset{} + multiset{id};
      InstallCounted(objects, slots, byPid, mine + lost + multiset{}, cpu, slots[cpu].(handles := table), id);
      slots := slots[cpu := slots[cpu].(handles := table)];
      pins := mine;
      return Ok(SlotToHandle(i));
    }

    /** `resolve_handle_entry`: what a handle in the table names exists. */
    method ResolveHandleEntry(cpu: nat, handle: nat) returns (r: Result<HandleEntry, NtStatus>)
      requires Valid() && cpu < |slots|
      ensures handle == USIZE_MAX ==> r == Ok(HandleEntry(slots[cpu].processObject, 0x1F_FFFF))
      ensures handle == USIZE_MAX - 4 ==> r == Ok(HandleEntry(slots[cpu].threadObject, 0x1F_FFFF))
      ensures handle != USIZE_MAX && handle != USIZE_MAX - 4 ==>
                (r.Ok? <==> Occupied(slots[cpu].handles, handle)) && (r.Err? ==> r.error == InvalidHandle)
      ensures handle != USIZE_MAX && handle != USIZE_MAX - 4 && r.Ok? ==>
                Some(r.value) == slots[cpu].handles[HandleToSlot(handle).value] && r.value.objectId in objects
    {
      hide Holders, NamesOk, IdsOk, RefsCounted, FilesOk;
      if handle == USIZE_MAX {
        return Ok(HandleEntry(slots[cpu].processObject, 0x1F_FFFF));
      }
      if handle == USIZE_MAX - 4 {
        return Ok(HandleEntry(slots[cpu].threadObject, 0x1F_FFFF));
      }
      var slot := HandleToSlot(handle);
      if slot.None? || slot.value >= |slots[cpu].handles| || slots[cpu].handles[slot.value].None? {
        return Err(InvalidHandle);
      }
      HolderExists(objects, slots, byPid, pins + lost + multiset{}, cpu, slot.value);
      return Ok(slots[cpu].handles[slot.value].value);
    }

    /** `close_handle`: empties the place and releases the object. */
    method CloseHandle(cpu: nat, handle: nat) returns (r: Result<(), NtStatus>)
      requires Valid() && cpu < |slots|
      modifies this
      ensures lost == old(lost)
      ensures Valid() && byPid == old(byPid) && pins == old(pins)
      ensures r.Ok? <==> handle != USIZE_MAX && handle != USIZE_MAX - 4 && Occupied(old(slots)[cpu].handles, handle)
      ensures r.Err? ==> objects == old(objects) && slots == old(slots) && closedFds == old(closedFds)
      ensures r.Err? ==>
              r.error == if handle == USIZE_MAX || handle == USIZE_MAX - 4 then AccessDenied else InvalidHandle
      ensures r.Ok? ==> var i, was := HandleToSlot(handle).value, old(slots)[cpu].handles;
                        && slots == old(slots)[cpu := old(slots)[cpu].(handles := was[i := None])]
                        && LostOne(old(objects), objects, was[i].value.objectId)
      ensures r.Ok? ==> var id := old(slots)[cpu].handles[HandleToSlot(handle).value].value.objectId;
                        && id in old(objects)
                        && closedFds == if old(objects)[id].refs == 1 && old(objects)[id].data.FileData?
                                        then old(closedFds) + [old(objects)[id].data.vfsHandle] else old(closedFds)
    {
      hide Holders, NamesOk, IdsOk, RefsCounted, FilesOk, CountIn, LostOne;
      if handle == USIZE_MAX || handle == USIZE_MAX - 4 {
        return Err(AccessDenied);
      }
      var slot := HandleToSlot(handle);
      if slot.None? || slot.value >= |slots[cpu].handles| || slots[cpu].handles[slot.value].None? {
        return Err(InvalidHandle);
      }
      var i, handles := slot.value, slots[cpu].handles;
      var id := handles[i].value.objectId;
      HolderExists(objects, slots, byPid, pins + lost + multiset{}, cpu, i);
      forall k: nat
        ensures CountIn(handles[i := None], k) + multiset{id}[k] == CountIn(handles, k)
      {
        CountUpdate(handles, i, None, k);
      }
      var taken := slots[cpu].(handles := handles[i := None]);
      TakeCounted(objects, slots, byPid, pins + lost + multiset{}, cpu, taken, multiset{id});
      assert pins + lost + multiset{} + multiset{id} == pins + lost + multiset{id};
      slots := slots[cpu := slots[cpu].(handles := handles[i := None])];
      r := Release(id, multiset{id});
      assert multiset{id} - multiset{id} == multiset{};
    }

    /** The handle part of `exit_current`: the table is emptied and every object in it released once per handle. */
    method ExitCurrent(cpu: nat)
      requires Valid() && cpu < |slots|
      modifies this
      ensures lost == old(lost)
      ensures Valid() && byPid == old(byPid) && pins == old(pins) && |slots| == |old(slots)|
      ensures |slots[cpu].handles| == |old(slots)[cpu].handles|
      ensures (forall i :: 0 <= i < |slots[cpu].handles| ==> slots[cpu].handles[i].None?)
      ensures slots == old(slots)[cpu := old(slots)[cpu].(handles := slots[cpu].handles)]
      ensures forall k: nat :: Refs(objects, k) == Refs(old(objects), k) - CountIn(old(slots)[cpu].handles, k)
    {
      hide Holders, NamesOk, IdsOk, RefsCounted, FilesOk, CountIn, Refs;
      var handles := slots[cpu].handles;
      var ids := TakeAll(handles);
      var emptied: seq<Option<HandleEntry>> := seq(|handles|, _ => None);
      ghost var due: multiset<nat> := multiset(ids);
      forall k: nat ensures due[k] == CountIn(handles, k) && CountIn(emptied, k) == 0 {
        IdsCount(handles, k);
        CountNone(emptied, k);
      }
      TakeCounted(objects, slots, byPid, pins + lost + multiset{}, cpu, slots[cpu].(handles := emptied), due);
      assert pins + lost + multiset{} + due == pins + lost + due;
      slots := slots[cpu := slots[cpu].(handles := emptied)];
      ReleaseAll(ids);
    }

    method ReleaseAll(ids: seq<nat>)
      requires ValidBut(multiset(ids))
      modifies this
      ensures lost == old(lost)
      ensures Valid() && slots == old(slots) && byPid == old(byPid) && pins == old(pins)
      ensures forall k: nat :: Refs(objects, k) == Refs(old(objects), k) - multiset(ids)[k]
    {
      hide Holders, NamesOk, IdsOk, RefsCounted, FilesOk, Refs;
      assert ids[0..] == ids;
      for i := 0 to |ids|
        invariant ValidBut(multiset(ids[i..])) && slots == old(slots) && byPid == old(byPid)
        invariant pins == old(pins) && lost == old(lost)
        invariant forall k: nat :: Refs(objects, k) == Refs(old(objects), k) - multiset(ids[..i])[k]
      {
        assert ids[i..] == [ids[i]] + ids[i + 1..] && ids[..i + 1] == ids[..i] + [ids[i]];
        assert multiset(ids[i..]) - multiset{ids[i]} == multiset(ids[i + 1..]);
        OtherExists(objects, slots, byPid, pins + lost + multiset(ids[i..]), ids[i]);
        var released := Release(ids[i], multiset(ids[i..]));
      }
      assert ids[|ids|..] == [] && ids[..|ids|] == ids;
    }

    /** `switch_active_process`: the running process is parked and another takes its place. */
    method SwitchActiveProcess(cpu: nat, pid: Option<nat>)
      requires Valid() && cpu < |slots| && (pid.Some? ==> 0 < pid.value < PIDS) && activePids[cpu] < PIDS
      modifies this
      ensures Valid() && objects == old(objects) && named == old(named) && pins == old(pins)
      ensures closedFds == old(closedFds)
      ensures var (s, b, a) := Switched(old(slots), old(byPid), old(activePids), cpu, pid);
              slots == s && byPid == b && activePids == a
      ensures lost == old(lost) + Overwritten(old(slots), old(byPid), old(activePids), cpu, pid)
      ensures CleanSwitch(old(slots), old(byPid), old(activePids), cpu) ==> lost == old(lost)
    {
      hide Holders, NamesOk, IdsOk, RefsCounted, FilesOk, Overwritten;
      SwitchKeeps(slots, byPid, activePids, cpu, pid);
      SwitchCounted(objects, slots, byPid, activePids, cpu, pid, pins, lost);
      lost := lost + Overwritten(slots, byPid, activePids, cpu, pid);
      ExchangeTables(cpu, pid);
    }

    /** What the switch does to the tables. */
    method ExchangeTables(cpu: nat, pid: Option<nat>)
      requires cpu < |slots| == |activePids| && (pid.Some? ==> pid.value != 0)
      modifies `slots, `byPid, `activePids
      ensures var (s, b, a) := Switched(old(slots), old(byPid), old(activePids), cpu, pid);
              slots == s && byPid == b && activePids == a
    {
      var oldPid := activePids[cpu];
      if oldPid == (if pid.Some? then pid.value else 0) {
        return;
      }
      if oldPid != 0 {
        byPid := byPid[oldPid := slots[cpu]];
        slots := slots[cpu := EmptyProcess()];
      }
      if pid.Some? {
        if pid.value !in byPid {
          activePids := activePids[cpu := 0];
          slots := slots[cpu := EmptyProcess()];
          return;
        }
        slots := slots[cpu := byPid[pid.value]];
        byPid := byPid - {pid.value};
        activePids := activePids[cpu := pid.value];
      } else {
        slots := slots[cpu := EmptyProcess()];
        activePids := activePids[cpu := 0];
      }
    }

    /** Dropping a reference that is not a handle's, such as the one `create_file` returns. */
    method ReleaseOwn(id: nat) returns (r: Result<(), NtStatus>)
      requires Valid() && id in pins
      modifies this
      ensures lost == old(lost)
      ensures Valid() && slots == old(slots) && byPid == old(byPid) && pins == old(pins) - multiset{id}
      ensures r.Ok? && id in old(objects) && LostOne(old(objects), objects, id)
    {
      hide Holders, NamesOk, IdsOk, RefsCounted, FilesOk, LostOne;
      OtherExists(objects, slots, byPid, pins + lost + multiset{}, id);
      assert pins + lost + multiset{} == pins - multiset{id} + lost + multiset{id};
      pins := pins - multiset{id};
      r := Release(id, multiset{id});
      assert multiset{id} - multiset{id} == multiset{};
    }
  }

  /** NO LEAK, NO DANGLING: while no table has been overwritten, an object exists exactly while something holds it. */
  lemma AliveIffHeld(s: NtState, id: nat)
    requires s.Valid() && s.lost == multiset{}
    ensures id in s.objects <==> Holders(s.slots, s.byPid, id) > 0 || id in s.pins
    ensures Refs(s.objects, id) == Holders(s.slots, s.byPid, id) + s.pins[id]
  {
    hide Holders, NamesOk, FilesOk;
    assert Holders(s.slots, s.byPid, id) + (s.pins + s.lost + multiset{})[id] == Refs(s.objects, id);
  }

  /** The collecting pass of `exit_current`. */
  method TakeAll(handles: seq<Option<HandleEntry>>) returns (ids: seq<nat>)
    ensures ids == IdsOf(handles)
  {
    ids := [];
    for i := 0 to |handles|
      invariant ids == IdsOf(handles[..i])
    {
      assert handles[..i + 1][..i] == handles[..i];
      if handles[i].Some? {
        ids := ids + [handles[i].value.objectId];
      }
    }
    assert handles[..|handles|] == handles;
  }

  /** The objects a table names, in order. */
  function IdsOf(handles: seq<Option<HandleEntry>>): seq<nat> {
    if handles == [] then []
    else
      var last := handles[|handles| - 1];
      IdsOf(handles[..|handles| - 1]) + (if last.Some? then [last.value.objectId] else [])
  }

  lemma {:induction false} IdsCount(handles: seq<Option<HandleEntry>>, id: nat)
    ensures multiset(IdsOf(handles))[id] == CountIn(handles, id)
  {
    if handles != [] { IdsCount(handles[..|handles| - 1], id); }
  }

  /** The handle names an occupied place of the table. */
  predicate Occupied(handles: seq<Option<HandleEntry>>, handle: nat) {
    var slot := HandleToSlot(handle);
    slot.Some? && slot.value < |handles| && handles[slot.value].Some?
  }

  /** The entry went in the first empty place, or at the end of a full table. */
  ghost predicate Placed(handles: seq<Option<HandleEntry>>, i: nat, e: HandleEntry, table: seq<Option<HandleEntry>>) {
    && i <= |handles| && (forall j :: 0 <= j < i ==> handles[j].Some?)
    && (if i < |handles| then handles[i].None? && table == handles[i := Some(e)] else table == handles + [Some(e)])
  }

  lemma PlacedCount(handles: seq<Option<HandleEntry>>, i: nat, e: HandleEntry, table: seq<Option<HandleEntry>>, id: nat)
    requires Placed(handles, i, e, table)
    ensures CountIn(table, id) == CountIn(handles, id) + One(Some(e), id)
  {
    if i < |handles| {
      CountUpdate(handles, i, Some(e), id);
    } else {
      assert table[..|handles|] == handles;
    }
  }

  lemma CountedRefs(objects: Objects, nextId: nat, id: nat)
    requires IdsOk(objects, nextId) && id in objects
    ensures objects[id].refs > 0
  {
  }

  lemma {:induction false} NoHandles(slots: seq<UserProcess>, id: nat)
    requires forall i :: 0 <= i < |slots| ==> slots[i].handles == []
    ensures CountSlots(slots, id) == 0
  {
    if slots != [] { NoHandles(slots[..|slots| - 1], id); }
  }

  lemma {:induction false} NoParked(id: nat, n: nat)
    ensures CountParked(map[], id, n) == 0
  {
    if n > 0 { NoParked(id, n - 1); }
  }

  lemma FreshIds(objects: Objects, nextId: nat)
    requires IdsOk(objects, nextId)
    ensures nextId !in objects
  {
  }

  lemma NamedExist(objects: Objects, named: map<string, nat>)
    requires NamesOk(objects, named)
    ensures forall n <- named :: named[n] in objects
  {
  }
}
