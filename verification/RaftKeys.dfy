/** The `/raft/...` key names (src/placement-center/src/storage/keys.rs). */
module RaftKeys {
  import opened RaftTypes

  const FIRST_INDEX_KEY := "/raft/first_index"
  const LAST_INDEX_KEY := "/raft/last_index"
  const HARD_STATE_KEY := "/raft/hard_state"
  const CONF_STATE_KEY := "/raft/conf_state"
  const UNCOMMIT_KEY := "/raft/uncommit_index"
  const SNAPSHOT_KEY := "/raft/snapshot"
  const ENTRY_PREFIX := "/raft/entry/"

  const DIGITS := "0123456789"

  /** How an unsigned integer prints. */
  function Decimal(n: nat): string {
    if n < 10 then [DIGITS[n]] else Decimal(n / 10) + [DIGITS[n % 10]]
  }

  function EntryKey(index: U64): string {
    ENTRY_PREFIX + Decimal(index)
  }

  lemma {:induction false} DecimalInjective(a: nat, b: nat)
    requires Decimal(a) == Decimal(b)
    ensures a == b
  {
    DecimalLength(a);
    DecimalLength(b);
    var x, y := Decimal(a), Decimal(b);
    assert x[|x| - 1] == DIGITS[a % 10] && y[|y| - 1] == DIGITS[b % 10];
    if a >= 10 && b >= 10 {
      assert x[..|x| - 1] == Decimal(a / 10) && y[..|y| - 1] == Decimal(b / 10);
      DecimalInjective(a / 10, b / 10);
    }
  }

  lemma DecimalLength(n: nat)
    ensures |Decimal(n)| >= 1 && (|Decimal(n)| == 1 <==> n < 10)
  {
  }

  const FIXED_KEYS := {FIRST_INDEX_KEY, LAST_INDEX_KEY, HARD_STATE_KEY, CONF_STATE_KEY, UNCOMMIT_KEY, SNAPSHOT_KEY}

  /** Entry keys of different indices differ, and no entry key is one of the six fixed keys. */
  lemma EntryKeysDistinct(a: U64, b: U64)
    ensures EntryKey(a) == EntryKey(b) <==> a == b
    ensures EntryKey(a) !in FIXED_KEYS
  {
    if EntryKey(a) == EntryKey(b) {
      assert EntryKey(a)[|ENTRY_PREFIX|..] == Decimal(a) && EntryKey(b)[|ENTRY_PREFIX|..] == Decimal(b);
      DecimalInjective(a, b);
    }
    assert EntryKey(a)[6] == ENTRY_PREFIX[6] == 'e';
    assert forall k | k in FIXED_KEYS :: |k| > 6 && k[6] != 'e';
  }
}
