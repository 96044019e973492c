/** `setreg`: write a register, read it back, and retry until the read-back
    matches or the attempts run out. The device's answers are given as
    `readBacks`: readBacks[k] is the byte the read-back of attempt k returns.
    The result is `true` for FAILURE, the inverse of the usual convention. */
module SetReg {
  import opened CInt
  import opened Bus

  /** The retry ceiling of the write-and-verify loop. */
  const MaxAttempts: nat := 20

  /** The transfers of one attempt: write the pair, re-select the register,
      read one byte back. */
  function AttemptTransfers(addr: Byte, data: Byte): (t: seq<Transfer>)
    ensures |t| == 3
    ensures forall i :: 0 <= i < |t| ==> t[i].device == DeviceAddress
    ensures t[0].Write? && t[0].bytes == [addr, data]
    ensures t[1].Write? && t[1].bytes == [addr]
    ensures t[2].Read? && t[2].count == 1
  {
    [Write(DeviceAddress, [addr, data]), Write(DeviceAddress, [addr]), Read(DeviceAddress, 1)]
  }

  /** How a call of setreg ends: the flag it returns (true means the value
      never read back) and the number of attempts it made. */
  datatype Outcome = Outcome(failure: bool, attempts: nat)

  /** The loop of setreg entered with `cnt` attempts made and no match yet. */
  function RunFrom(data: Byte, readBacks: seq<Byte>, cnt: nat): (o: Outcome)
    requires cnt <= MaxAttempts <= |readBacks|
    ensures cnt <= o.attempts <= MaxAttempts
    ensures o.failure <==> forall k :: cnt <= k < MaxAttempts ==> readBacks[k] != data
    ensures o.failure ==> o.attempts == MaxAttempts
    ensures !o.failure ==>
      o.attempts > cnt && readBacks[o.attempts - 1] == data &&
      forall k :: cnt <= k < o.attempts - 1 ==> readBacks[k] != data
    decreases MaxAttempts - cnt
  {
    if cnt == MaxAttempts then Outcome(true, cnt)
    else if readBacks[cnt] == data then Outcome(false, cnt + 1)
    else RunFrom(data, readBacks, cnt + 1)
  }

  /** What one call of setreg does, as a function of the read-backs. */
  function SetRegOutcome(data: Byte, readBacks: seq<Byte>): (o: Outcome)
    requires MaxAttempts <= |readBacks|
    ensures 1 <= o.attempts <= MaxAttempts
    ensures o.failure <==> forall k :: 0 <= k < MaxAttempts ==> readBacks[k] != data
    ensures o.failure ==> o.attempts == MaxAttempts
    ensures !o.failure ==>
      readBacks[o.attempts - 1] == data &&
      forall k :: 0 <= k < o.attempts - 1 ==> readBacks[k] != data
  {
    RunFrom(data, readBacks, 0)
  }

  /** The first read-back equal to the written value ends the loop: with the
      first match at index k < 20 setreg makes exactly k + 1 attempts and
      reports success. */
  lemma FirstMatchStops(data: Byte, readBacks: seq<Byte>, k: nat)
    requires k < MaxAttempts <= |readBacks|
    requires readBacks[k] == data
    requires forall j :: 0 <= j < k ==> readBacks[j] != data
    ensures SetRegOutcome(data, readBacks) == Outcome(false, k + 1)
  {
  }

  /** A device that never reads back the value makes setreg try exactly 20
      times and report failure. */
  lemma NeverMatchingGivesUp(data: Byte, readBacks: seq<Byte>)
    requires MaxAttempts <= |readBacks|
    requires forall j :: 0 <= j < MaxAttempts ==> readBacks[j] != data
    ensures SetRegOutcome(data, readBacks) == Outcome(true, MaxAttempts)
  {
  }

  /** Read-backs after the last attempt made do not affect the outcome. */
  lemma OutcomeIgnoresLaterReadBacks(data: Byte, r1: seq<Byte>, r2: seq<Byte>, cnt: nat)
    requires cnt <= MaxAttempts <= |r1| && MaxAttempts <= |r2|
    requires forall k :: cnt <= k < RunFrom(data, r1, cnt).attempts ==> r1[k] == r2[k]
    ensures RunFrom(data, r1, cnt) == RunFrom(data, r2, cnt)
    decreases MaxAttempts - cnt
  {
  }

  /** setreg: each attempt writes (addr, data), reads the register back and
      stops on the first match; after 20 attempts it gives up. Returns the
      failure flag and the transfers of every attempt made. */
  method SetReg(addr: Byte, data: Byte, readBacks: seq<Byte>)
    returns (failure: bool, attempts: seq<seq<Transfer>>)
    requires MaxAttempts <= |readBacks|
    ensures 1 <= |attempts| <= MaxAttempts
    ensures forall k :: 0 <= k < |attempts| ==> attempts[k] == AttemptTransfers(addr, data)
    ensures failure <==> forall k :: 0 <= k < MaxAttempts ==> readBacks[k] != data
    ensures failure ==> |attempts| == MaxAttempts
    ensures !failure ==>
      readBacks[|attempts| - 1] == data &&
      forall k :: 0 <= k < |attempts| - 1 ==> readBacks[k] != data
    ensures Outcome(failure, |attempts|) == SetRegOutcome(data, readBacks)
  {
    var cnt := 0;
    var done := false;
    failure := true;
    attempts := [];
    while !done && cnt < MaxAttempts
      invariant 0 <= cnt <= MaxAttempts
      invariant |attempts| == cnt
      invariant forall k :: 0 <= k < cnt ==> attempts[k] == AttemptTransfers(addr, data)
      invariant done <==> !failure
      invariant done ==> 1 <= cnt && readBacks[cnt - 1] == data
      invariant forall k :: 0 <= k < cnt && !(done && k == cnt - 1) ==> readBacks[k] != data
      invariant SetRegOutcome(data, readBacks) ==
        if done then Outcome(false, cnt) else RunFrom(data, readBacks, cnt)
      decreases MaxAttempts - cnt
    {
      attempts := attempts + [AttemptTransfers(addr, data)];
      var resp := readBacks[cnt];
      if resp == data {
        failure := false;
        done := true;
      }
      cnt := cnt + 1;
    }
  }
}
