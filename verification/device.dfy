/** The device aggregate: an immutable record and the operations that the
    source performs as in-place mutations. A guarded operation that fails
    returns `Failure` and no new device, which is the model of "the exception
    is thrown before any field is assigned". */
module Devices {
  import opened Wrappers
  import opened Exceptions

  /** A `Guid`; fresh ones are supplied by the caller. */
  type Guid = nat

  /** A `DateTimeOffset`, as an instant on an integer time line. */
  type Timestamp = int

  datatype StateType = Available | InUse | Inactive

  datatype Device = Device(
    id: Guid,
    name: Option<string>,
    brand: Option<string>,
    state: StateType,
    creationTime: Timestamp)

  /** The state `Create` uses when its caller passes none. */
  const DefaultState: StateType := Available

  /** `Id` and `CreationTime` are init-only: no operation may change them. */
  predicate SameIdentity(d: Device, d': Device)
  {
    d'.id == d.id && d'.creationTime == d.creationTime
  }

  /** The factory. `id` stands for the fresh `Guid.NewGuid()` and `now` for the
      clock reading used when no creation time is supplied. */
  function Create(
    id: Guid,
    name: Option<string>,
    brand: Option<string>,
    state: StateType,
    creationTime: Option<Timestamp>,
    now: Timestamp): (d: Device)
    ensures d.id == id && d.name == name && d.brand == brand && d.state == state
    ensures creationTime.Some? ==> d.creationTime == creationTime.value
    ensures creationTime.None? ==> d.creationTime == now
  {
    Device(id, name, brand, state, creationTime.GetOr(now))
  }

  /** The in-use guard: fails, naming `operation`, exactly when the device is in use. */
  function EnsureNotInUse(d: Device, operation: string): (r: Outcome<DomainError>)
    ensures r.Fail? <==> d.state == InUse
    ensures r.Fail? ==> r.error == DeviceInUse(operation)
  {
    if d.state == InUse then Fail(DeviceInUse(operation)) else Pass
  }

  function Rename(d: Device, newName: Option<string>): (r: Result<Device, DomainError>)
    ensures r.Failure? <==> d.state == InUse
    ensures r.Failure? ==> r.error == DeviceInUse(RenameOperation)
    ensures r.Success? ==>
              && r.value.name == newName
              && r.value.brand == d.brand
              && r.value.state == d.state
              && SameIdentity(d, r.value)
  {
    match EnsureNotInUse(d, RenameOperation)
    case Fail(e) => Failure(e)
    case Pass => Success(d.(name := newName))
  }

  function Rebrand(d: Device, newBrand: Option<string>): (r: Result<Device, DomainError>)
    ensures r.Failure? <==> d.state == InUse
    ensures r.Failure? ==> r.error == DeviceInUse(RebrandOperation)
    ensures r.Success? ==>
              && r.value.brand == newBrand
              && r.value.name == d.name
              && r.value.state == d.state
              && SameIdentity(d, r.value)
  {
    match EnsureNotInUse(d, RebrandOperation)
    case Fail(e) => Failure(e)
    case Pass => Success(d.(brand := newBrand))
  }

  /** Never guarded: every transition, `InUse` to `InUse` included, is allowed,
      which is why the result is a plain `Device`. */
  function ChangeState(d: Device, newState: StateType): (d': Device)
    ensures d'.state == newState
    ensures d'.name == d.name && d'.brand == d.brand && SameIdentity(d, d')
  {
    d.(state := newState)
  }

  /** Checks the guard before deletion; the device itself is never modified. */
  function EnsureCanBeDeleted(d: Device): (r: Outcome<DomainError>)
    ensures r.Fail? <==> d.state == InUse
    ensures r.Fail? ==> r.error == DeviceInUse(DeleteOperation)
  {
    EnsureNotInUse(d, DeleteOperation)
  }

  /** One call on the aggregate, for reasoning about sequences of calls. */
  datatype Operation =
    | RenameOp(newName: Option<string>)
    | RebrandOp(newBrand: Option<string>)
    | ChangeStateOp(newState: StateType)
    | CheckDeletion

  /** The device after `op`, or the error it raised. A passed deletion check
      leaves the device as it was. */
  function Apply(d: Device, op: Operation): (r: Result<Device, DomainError>)
    ensures r.Success? ==> SameIdentity(d, r.value)
    ensures r.Failure? <==> d.state == InUse && !op.ChangeStateOp?
    ensures r.Failure? ==>
              r.error == DeviceInUse(if op.RenameOp? then RenameOperation
                                     else if op.RebrandOp? then RebrandOperation
                                     else DeleteOperation)
    ensures r.Success? ==>
              && r.value.name == (if op.RenameOp? then op.newName else d.name)
              && r.value.brand == (if op.RebrandOp? then op.newBrand else d.brand)
              && r.value.state == (if op.ChangeStateOp? then op.newState else d.state)
  {
    match op
    case RenameOp(n) => Rename(d, n)
    case RebrandOp(b) => Rebrand(d, b)
    case ChangeStateOp(s) => Success(ChangeState(d, s))
    case CheckDeletion =>
      match EnsureCanBeDeleted(d)
      case Fail(e) => Failure(e)
      case Pass => Success(d)
  }

  /** The names the guard can report. */
  predicate IsGuardedOperation(operation: string)
  {
    operation == RenameOperation || operation == RebrandOperation || operation == DeleteOperation
  }

  /** Calls `ops` in order, stopping at the first error, as a caller that lets
      the exception propagate would. A `Failure` carries no device: the calls
      that succeeded before it are dropped with it, whereas the source's object
      keeps their in-place assignments. A caller that lets the exception
      propagate discards that object, so nothing observable is lost. */
  function ApplyAll(d: Device, ops: seq<Operation>): (r: Result<Device, DomainError>)
    ensures r.Success? ==> SameIdentity(d, r.value)
    ensures r.Failure? ==> IsGuardedOperation(r.error.operation)
    decreases |ops|
  {
    if ops == [] then Success(d)
    else
      match Apply(d, ops[0])
      case Failure(e) => Failure(e)
      case Success(d') => ApplyAll(d', ops[1..])
  }

  /** Running `a` and then `b` is running `a + b`. */
  lemma {:induction false} ApplyAllConcat(d: Device, a: seq<Operation>, b: seq<Operation>)
    ensures ApplyAll(d, a + b) ==
              match ApplyAll(d, a)
              case Failure(e) => Failure(e)
              case Success(d') => ApplyAll(d', b)
    decreases |a|
  {
    if a == [] {
      assert a + b == b;
    } else {
      assert (a + b)[0] == a[0];
      assert (a + b)[1..] == a[1..] + b;
      match Apply(d, a[0])
      case Failure(e) =>
      case Success(d') => ApplyAllConcat(d', a[1..], b);
    }
  }

  predicate OnlyStateChanges(ops: seq<Operation>)
  {
    forall i :: 0 <= i < |ops| ==> ops[i].ChangeStateOp?
  }

  /** State changes alone always succeed, whatever the states involved, touch
      neither name nor brand, and leave the last requested state. */
  lemma {:induction false} StateChangesNeverFail(d: Device, ops: seq<Operation>)
    requires OnlyStateChanges(ops)
    ensures ApplyAll(d, ops).Success?
    ensures ApplyAll(d, ops).value.name == d.name
    ensures ApplyAll(d, ops).value.brand == d.brand
    ensures ops != [] ==> ApplyAll(d, ops).value.state == ops[|ops| - 1].newState
    decreases |ops|
  {
    if ops != [] {
      var d' := ChangeState(d, ops[0].newState);
      assert OnlyStateChanges(ops[1..]) by {
        forall i | 0 <= i < |ops[1..]| ensures ops[1..][i].ChangeStateOp? {
          assert ops[1..][i] == ops[i + 1];
        }
      }
      StateChangesNeverFail(d', ops[1..]);
    }
  }

  /** Without a state change, a device in use cannot be altered by any sequence
      of calls: either a call fails or nothing happened at all. */
  lemma {:induction false} InUseIsFrozen(d: Device, ops: seq<Operation>)
    requires d.state == InUse
    requires forall i :: 0 <= i < |ops| ==> !ops[i].ChangeStateOp?
    ensures ApplyAll(d, ops).Success? <==> ops == []
    ensures ops != [] ==> ApplyAll(d, ops).error == Apply(d, ops[0]).error
  {
    if ops != [] {
      assert !ops[0].ChangeStateOp?;
    }
  }

  /** The guard reads the state at the moment of the call: renaming and then
      marking a device in use succeeds, the other order fails. */
  lemma GuardReadsCurrentState(d: Device, n: Option<string>)
    requires d.state != InUse
    ensures ApplyAll(d, [RenameOp(n), ChangeStateOp(InUse)])
              == Success(d.(name := n, state := InUse))
    ensures ApplyAll(d, [ChangeStateOp(InUse), RenameOp(n)])
              == Failure(DeviceInUse(RenameOperation))
  {
    var renamed := d.(name := n);
    assert Apply(d, RenameOp(n)) == Success(renamed);
    assert [RenameOp(n), ChangeStateOp(InUse)][1..] == [ChangeStateOp(InUse)];
    assert ApplyAll(renamed, [ChangeStateOp(InUse)])
        == ApplyAll(renamed.(state := InUse), []);
    assert [ChangeStateOp(InUse), RenameOp(n)][1..] == [RenameOp(n)];
  }

  /** A device made by `Create` without a state is available, so every guarded
      call on it passes. */
  lemma CreatedDeviceIsUnguarded(id: Guid, name: Option<string>, brand: Option<string>,
                                 now: Timestamp, n: Option<string>, b: Option<string>)
    ensures Create(id, name, brand, DefaultState, None, now).state == Available
    ensures Rename(Create(id, name, brand, DefaultState, None, now), n).Success?
    ensures Rebrand(Create(id, name, brand, DefaultState, None, now), b).Success?
    ensures EnsureCanBeDeleted(Create(id, name, brand, DefaultState, None, now)).Pass?
  {
  }
}
