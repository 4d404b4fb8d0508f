/** The record every version of a cache entry shares, and the deque and counters that admission
    and removal keep in step. */
module PolicyRecord {
  import opened Common

  type Key = nat
  type Id = nat   // identity of an `EntryInfo` allocation

  datatype EntryInfo = EntryInfo(
    key: Key,
    admitted: bool,
    retired: bool,
    entryGen: nat,
    policyGen: nat,
    weight: nat,
    lastAccessed: Option<nat>)

  predicate IsDirty(e: EntryInfo) {
    e.entryGen != e.policyGen
  }

  /** `EntryInfo::set_policy_gen` on 16-bit generations. */
  function SetPolicyGen(current: nat, value: nat): nat {
    if current >= value || value - current > 0x7FFF then current else value
  }

  function Settled(e: EntryInfo, gen: nat): EntryInfo {
    e.(policyGen := SetPolicyGen(e.policyGen, gen))
  }

  function Retired(e: EntryInfo): EntryInfo {
    e.(retired := true)
  }

  /** The access-order deque with the counters that go with it. */
  datatype Ledger = Ledger(deque: seq<Id>, entryCount: int, weightedSize: nat)

  /** `handle_admit` on the policy's side. */
  function Join(l: Ledger, id: Id, weight: nat): Ledger {
    Ledger(l.deque + [id], l.entryCount + 1, SatAdd(l.weightedSize, weight))
  }

  /** `handle_remove` on the policy's side. */
  function Leave(l: Ledger, id: Id, weight: nat): Ledger {
    Ledger(Without(l.deque, id), l.entryCount - 1, SatSub(l.weightedSize, weight))
  }
}
