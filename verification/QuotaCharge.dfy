/** What a put is charged against what its row holds. Sizes are in bytes. */
module QuotaCharge {

  /** How much larger a value may get in an update while full. */
  const GROWTH_SLACK: nat := 64

  function CreateCharge(key: nat, value: nat): nat {
    key + value
  }

  /** Below the limit the old value is not read, so the new one is counted twice. */
  function BelowCharge(key: nat, value: nat): nat {
    key + 2 * value
  }

  /** While full the key is read anyway. */
  function FullCharge(key: nat, value: nat, previous: nat): nat {
    key + value + previous
  }

  /** An update of the key, to a value of this size. */
  datatype Update = Below(value: nat) | WhileFull(value: nat)

  /** The value after the updates, then what the rows hold and what was charged: the row of an update carries the old value. */
  function Last(first: nat, updates: seq<Update>): nat {
    if updates == [] then first else updates[|updates| - 1].value
  }

  function RowBytes(key: nat, first: nat, updates: seq<Update>): nat {
    if updates == [] then key + first
    else
      var before := updates[..|updates| - 1];
      RowBytes(key, first, before) + key + updates[|updates| - 1].value + Last(first, before)
  }

  function Charged(key: nat, first: nat, updates: seq<Update>): nat {
    if updates == [] then CreateCharge(key, first)
    else
      var before, u := updates[..|updates| - 1], updates[|updates| - 1];
      Charged(key, first, before)
      + match u
        case Below(value) => BelowCharge(key, value)
        case WhileFull(value) => FullCharge(key, value, Last(first, before))
  }

  function FullUpdates(updates: seq<Update>): nat {
    if updates == [] then 0
    else FullUpdates(updates[..|updates| - 1]) + if updates[|updates| - 1].WhileFull? then 1 else 0
  }

  /** What updates while full added to the value. */
  function FullGrowth(first: nat, updates: seq<Update>): int {
    if updates == [] then 0
    else
      var before, u := updates[..|updates| - 1], updates[|updates| - 1];
      FullGrowth(first, before) + if u.WhileFull? then u.value - Last(first, before) else 0
  }

  /** Every update while full keeps within the slack. */
  predicate WithinSlack(first: nat, updates: seq<Update>) {
    updates == []
    || var before, u := updates[..|updates| - 1], updates[|updates| - 1];
       WithinSlack(first, before) && (u.WhileFull? ==> u.value <= Last(first, before) + GROWTH_SLACK)
  }

  /** The exact difference: the value's net change, less what the updates while full contributed. */
  lemma {:induction false} ChargeIs(key: nat, first: nat, updates: seq<Update>)
    ensures Charged(key, first, updates) - RowBytes(key, first, updates)
            == Last(first, updates) - first - FullGrowth(first, updates)
  {
    if updates != [] { ChargeIs(key, first, updates[..|updates| - 1]); }
  }

  lemma {:induction false} GrowthBounded(first: nat, updates: seq<Update>)
    requires WithinSlack(first, updates)
    ensures FullGrowth(first, updates) <= GROWTH_SLACK * FullUpdates(updates)
  {
    if updates != [] { GrowthBounded(first, updates[..|updates| - 1]); }
  }

  /**
    At every point of a key's life the charge covers the bytes written, less the first value and less the
    slack of the updates while full; and with none of those it falls short exactly while the value is
    smaller than the first.
   */
  lemma ChargeCoversRows(key: nat, first: nat, updates: seq<Update>)
    requires WithinSlack(first, updates)
    ensures RowBytes(key, first, updates) - first - GROWTH_SLACK * FullUpdates(updates) <= Charged(key, first, updates)
    ensures FullUpdates(updates) == 0 ==>
              (Charged(key, first, updates) < RowBytes(key, first, updates) <==> Last(first, updates) < first)
  {
    ChargeIs(key, first, updates);
    GrowthBounded(first, updates);
    if FullUpdates(updates) == 0 { NoFullGrowth(first, updates); }
  }

  lemma {:induction false} NoFullGrowth(first: nat, updates: seq<Update>)
    requires FullUpdates(updates) == 0
    ensures FullGrowth(first, updates) == 0
  {
    if updates != [] { NoFullGrowth(first, updates[..|updates| - 1]); }
  }
}
