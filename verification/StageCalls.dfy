/** The file system calls of an installation, each of which may fail before or after its effect. */
module StageCalls {
  import opened ShortReads

  datatype Outcome = Works | Fails | FailsLate

  class Calls {
    const outcomes: nat -> Outcome
    /** What the disk ends up holding of the bytes and of the mode that a successful call sets. */
    const storesBytes: (nat, Bytes) -> Bytes
    const storesMode: (nat, nat) -> nat
    var made: nat

    constructor (outcomes: nat -> Outcome, storesBytes: (nat, Bytes) -> Bytes, storesMode: (nat, nat) -> nat)
      ensures made == 0 && this.outcomes == outcomes && this.storesBytes == storesBytes && this.storesMode == storesMode
    {
      this.outcomes, this.storesBytes, this.storesMode, made := outcomes, storesBytes, storesMode, 0;
    }

    predicate Raises(call: nat) {
      outcomes(call) != Works
    }

    /** The effect of this call takes place. */
    predicate TakesEffect(call: nat) {
      outcomes(call) != Fails
    }

    /** None of these calls raises. */
    ghost predicate Clean(from: nat, to: nat) {
      forall i | from <= i < to :: !Raises(i)
    }

    predicate KeepsBytes(call: nat, data: Bytes) {
      storesBytes(call, data) == data
    }

    predicate KeepsMode(call: nat, mode: nat) {
      storesMode(call, mode) == mode
    }

    /** The disk holds what it was told to hold. */
    ghost predicate Faithful() {
      (forall i, data :: KeepsBytes(i, data)) && (forall i, mode :: KeepsMode(i, mode))
    }

    /** A call without an effect on the stage. */
    method Look() returns (ok: bool)
      modifies this
      ensures made == old(made) + 1 && (ok <==> !Raises(old(made)))
    {
      ok := !Raises(made);
      made := made + 1;
    }

    /** A call with an effect. */
    method Do() returns (ok: bool, done: bool)
      modifies this
      ensures made == old(made) + 1 && (ok <==> !Raises(old(made))) && (done <==> TakesEffect(old(made)))
    {
      ok, done := !Raises(made), TakesEffect(made);
      made := made + 1;
    }

    method Write(data: Bytes) returns (ok: bool, stored: Bytes)
      modifies this
      ensures made == old(made) + 1 && (ok <==> !Raises(old(made)))
      ensures ok && Faithful() ==> stored == data
    {
      ok, stored := !Raises(made), if TakesEffect(made) then storesBytes(made, data) else [];
      assert KeepsBytes(made, data) <==> storesBytes(made, data) == data;
      made := made + 1;
    }

    method SetMode(before: nat, mode: nat) returns (ok: bool, after: nat)
      modifies this
      ensures made == old(made) + 1 && (ok <==> !Raises(old(made)))
      ensures ok && Faithful() ==> after == mode
    {
      ok, after := !Raises(made), if TakesEffect(made) then storesMode(made, mode) else before;
      assert KeepsMode(made, mode) <==> storesMode(made, mode) == mode;
      made := made + 1;
    }
  }
}
