/** The 16-bit generations that tell whether the policy has caught up with the table
    (`EntryInfo::is_dirty`), and what wrap-around does to them. */
module EntryGeneration {
  import opened Common
  import opened PolicyRecord

  /** `entry_gen` after the n-th table change of one entry (it starts at 1). */
  function EntryGenAfter(n: nat): nat {
    n % U16_MOD
  }

  /** `policy_gen` after draining the ops of the first n table changes in order. */
  function PolicyGenAfter(n: nat): nat {
    if n == 0 then 0 else SetPolicyGen(PolicyGenAfter(n - 1), EntryGenAfter(n))
  }

  /** The record of an entry whose n table changes have all been drained, in order. */
  function Drained(e: EntryInfo, n: nat): EntryInfo {
    e.(entryGen := EntryGenAfter(n), policyGen := PolicyGenAfter(n))
  }

  /** `set_policy_gen` only moves forward, and by at most 32767: a value that is not larger is refused,
      and so is one too far ahead. */
  lemma MovesForwardOnly(current: nat, value: nat)
    ensures SetPolicyGen(current, value) == if current < value <= current + 32767 then value else current
  {
  }

  /** Once it has reached the largest generation, `policy_gen` never moves again: every later
      value compares as not larger. */
  lemma {:induction false} PolicyGenSticks(n: nat)
    ensures PolicyGenAfter(n) == if n < U16_MOD then n else U16_MOD - 1
  {
    if n > 0 {
      PolicyGenSticks(n - 1);
      if n < U16_MOD { assert EntryGenAfter(n) == n; } else { assert EntryGenAfter(n) <= U16_MOD - 1; }
    }
  }

  /** A fully drained entry is clean exactly while its generation has not wrapped around, or
      happens to be back at the largest value. */
  lemma CleanAfterDrainIff(e: EntryInfo, n: nat)
    ensures !IsDirty(Drained(e, n)) <==> n < U16_MOD || n % U16_MOD == U16_MOD - 1
  {
    PolicyGenSticks(n);
  }

  /** From its 65536th change up to the 131070th an entry is dirty although every op is drained. */
  lemma WrapLeavesEntryDirty(e: EntryInfo, n: nat)
    requires U16_MOD <= n < 2 * U16_MOD - 1
    ensures IsDirty(Drained(e, n))
  {
    CleanAfterDrainIff(e, n);
  }
}
