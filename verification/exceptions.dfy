/** The single domain error of the device aggregate: a guarded operation was
    attempted on a device that is in use. */
module Exceptions {
  import opened Wrappers

  /** Operation names passed to the in-use guard. */
  const RenameOperation: string := "rename"
  const RebrandOperation: string := "rebrand"
  const DeleteOperation: string := "delete"

  /** `DeviceInUseException(operation)`. */
  datatype DomainError = DeviceInUse(operation: string)

  const MessagePrefix: string := "Cannot "
  const MessageSuffix: string := " a device that is in use."

  /** The exception message: the operation name framed by a fixed prefix and suffix. */
  function Message(e: DomainError): (m: string)
    ensures |m| == |MessagePrefix| + |e.operation| + |MessageSuffix|
    ensures m[..|MessagePrefix|] == "Cannot "
    ensures m[|MessagePrefix|..|m| - |MessageSuffix|] == e.operation
    ensures m[|m| - |MessageSuffix|..] == " a device that is in use."
  {
    MessagePrefix + e.operation + MessageSuffix
  }

  /** Recovers the operation name from a message, if it has the message's shape. */
  function OperationOf(m: string): (r: Option<string>)
    ensures r.Some? ==> |r.value| + |MessagePrefix| + |MessageSuffix| == |m|
  {
    if |m| >= |MessagePrefix| + |MessageSuffix|
       && m[..|MessagePrefix|] == MessagePrefix
       && m[|m| - |MessageSuffix|..] == MessageSuffix
    then Some(m[|MessagePrefix|..|m| - |MessageSuffix|])
    else None
  }

  /** The operation can always be read back from the message. */
  lemma MessageRoundTrip(e: DomainError)
    ensures OperationOf(Message(e)) == Some(e.operation)
  {
    var m := Message(e);
    assert m[..|MessagePrefix|] == MessagePrefix;
    assert m[|m| - |MessageSuffix|..] == MessageSuffix;
  }

  /** Distinct operations give distinct messages. */
  lemma MessageInjective(a: DomainError, b: DomainError)
    ensures Message(a) == Message(b) <==> a == b
  {
    if Message(a) == Message(b) {
      MessageRoundTrip(a);
      MessageRoundTrip(b);
    }
  }

  /** A failed rename reports exactly this text. */
  lemma RenameMessage()
    ensures Message(DeviceInUse(RenameOperation)) == "Cannot rename a device that is in use."
  {
    var m := MessagePrefix + RenameOperation + MessageSuffix;
    var t := "Cannot rename a device that is in use.";
    assert |m| == |t|;
    forall i | 0 <= i < |m| ensures m[i] == t[i] {
    }
  }

  /** A failed rebrand reports exactly this text. */
  lemma RebrandMessage()
    ensures Message(DeviceInUse(RebrandOperation)) == "Cannot rebrand a device that is in use."
  {
    var m := MessagePrefix + RebrandOperation + MessageSuffix;
    var t := "Cannot rebrand a device that is in use.";
    assert |m| == |t|;
    forall i | 0 <= i < |m| ensures m[i] == t[i] {
    }
  }

  /** A failed delete check reports exactly this text. */
  lemma DeleteMessage()
    ensures Message(DeviceInUse(DeleteOperation)) == "Cannot delete a device that is in use."
  {
    var m := MessagePrefix + DeleteOperation + MessageSuffix;
    var t := "Cannot delete a device that is in use.";
    assert |m| == |t|;
    forall i | 0 <= i < |m| ensures m[i] == t[i] {
    }
  }
}
