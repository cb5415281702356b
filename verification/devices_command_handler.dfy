/** The create use case over an abstract store. The table is a map from id to
    device; the unit of work stages added devices and `SaveChanges` commits
    them. The fresh id and the clock reading are parameters. */
module DevicesCommandHandler {
  import opened Wrappers
  import opened Devices

  type Store = map<Guid, Device>

  /** `CreateDeviceCommand(Name, Brand, State)`; the state is carried but unused. */
  datatype CreateDeviceCommand = CreateDeviceCommand(
    name: Option<string>,
    brand: Option<string>,
    state: Option<StateType>)

  /** The committed table and the changes staged since the last save. */
  datatype UnitOfWork = UnitOfWork(committed: Store, staged: Store)

  /** `AddAsync`: stage `d` for insertion under its id. */
  function Add(u: UnitOfWork, d: Device): (u': UnitOfWork)
    ensures u'.committed == u.committed
    ensures u'.staged.Keys == u.staged.Keys + {d.id}
    ensures u'.staged[d.id] == d
    ensures forall k :: k in u.staged && k != d.id ==> u'.staged[k] == u.staged[k]
  {
    u.(staged := u.staged[d.id := d])
  }

  /** `SaveChangesAsync`: every staged change becomes part of the table. */
  function SaveChanges(u: UnitOfWork): (u': UnitOfWork)
    ensures u'.staged == map[]
    ensures u'.committed.Keys == u.committed.Keys + u.staged.Keys
    ensures forall k :: k in u.staged ==> u'.committed[k] == u.staged[k]
    ensures forall k :: k in u.committed && k !in u.staged ==> u'.committed[k] == u.committed[k]
  {
    UnitOfWork(u.committed + u.staged, map[])
  }

  /** What the handler leaves behind: the table and the id it returned. */
  datatype Created = Created(store: Store, id: Guid)

  /** `HandleAsync(CreateDeviceCommand)`. The command's state is not passed
      on to the factory, so the new device always starts out available. */
  function HandleCreate(store: Store, command: CreateDeviceCommand, newId: Guid, now: Timestamp): (r: Created)
    requires newId !in store
    ensures r.id == newId
    ensures r.store.Keys == store.Keys + {r.id}
    ensures forall k :: k in store ==> r.store[k] == store[k]
    ensures r.store[r.id].id == r.id
    ensures r.store[r.id].name == command.name && r.store[r.id].brand == command.brand
    ensures r.store[r.id].state == Available
    ensures r.store[r.id].creationTime == now
  {
    var device := Create(newId, command.name, command.brand, DefaultState, None, now);
    var u := SaveChanges(Add(UnitOfWork(store, map[]), device));
    Created(u.committed, device.id)
  }

  /** The table after a create is the old table with exactly one more entry. */
  lemma CreateAddsExactlyOne(store: Store, command: CreateDeviceCommand, newId: Guid, now: Timestamp)
    requires newId !in store
    ensures var r := HandleCreate(store, command, newId, now);
            && |r.store| == |store| + 1
            && r.store - {r.id} == store
  {
    var r := HandleCreate(store, command, newId, now);
    assert r.store.Keys == store.Keys + {newId};
    assert (r.store - {r.id}).Keys == store.Keys;
  }

  /** The requested state makes no difference to what is stored. */
  lemma CreateIgnoresRequestedState(store: Store, name: Option<string>, brand: Option<string>,
                                    s: Option<StateType>, newId: Guid, now: Timestamp)
    requires newId !in store
    ensures HandleCreate(store, CreateDeviceCommand(name, brand, s), newId, now)
            == HandleCreate(store, CreateDeviceCommand(name, brand, None), newId, now)
  {
  }

  /** Readings of a clock that never goes backwards. */
  ghost predicate Monotone(clock: seq<Timestamp>)
  {
    forall i, j :: 0 <= i <= j < |clock| ==> clock[i] <= clock[j]
  }

  /** A clock read at call time `i` is no later than the creation time of a
      device created from a later reading `j`. */
  lemma CreationTimeNotBeforeCall(store: Store, command: CreateDeviceCommand, newId: Guid,
                                  clock: seq<Timestamp>, i: nat, j: nat)
    requires newId !in store
    requires Monotone(clock) && i <= j < |clock|
    ensures var r := HandleCreate(store, command, newId, clock[j]);
            r.store[r.id].creationTime >= clock[i]
  {
  }
}
