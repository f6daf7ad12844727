/** Values shared by the openraft log store and state machine store. */
module RaftTypes {

  datatype Option<+T> = None | Some(value: T)

  const MAX_U64: nat := 0xFFFF_FFFF_FFFF_FFFF

  /** Rust's u64. */
  type U64 = n: nat | n <= 0xFFFF_FFFF_FFFF_FFFF

  /** u64 `x + 1` as a release build computes it: it wraps to 0. */
  function WrapSucc(x: U64): U64 {
    if x == MAX_U64 then 0 else x + 1
  }

  function Max(a: nat, b: nat): nat { if a < b then b else a }

  function Min(a: nat, b: nat): nat { if a < b then a else b }

  datatype LogId = LogId(term: U64, node: U64, index: U64)

  datatype Request =
    | Set(key: string, value: string)
    | Delete(key: string)

  datatype Membership = Membership(configs: seq<set<U64>>, nodes: map<U64, string>)

  datatype StoredMembership = StoredMembership(logId: Option<LogId>, membership: Membership)

  const NO_MEMBERSHIP := StoredMembership(None, Membership([], map[]))

  datatype Payload =
    | Blank
    | Normal(request: Request)
    | ConfigChange(membership: Membership)

  datatype Entry = Entry(logId: LogId, payload: Payload)

  /** The JSON bytes of a snapshot. Encoding a map always decodes to that map; bytes that
      came over the network need not decode at all. */
  datatype Blob = Json(kvs: map<string, string>) | Unreadable(raw: seq<U64>)

  function DecodeKvs(b: Blob): Option<map<string, string>> {
    if b.Json? then Some(b.kvs) else None
  }

  /** What the snapshot id string is printed from. */
  datatype SnapshotId = SnapshotId(last: Option<LogId>, suffix: U64)

  datatype SnapshotMeta = SnapshotMeta(lastLogId: Option<LogId>, lastMembership: StoredMembership, id: SnapshotId)

  datatype StoredSnapshot = StoredSnapshot(meta: SnapshotMeta, data: Blob)

  /** One past the index of a log id; 0 when there is none (the first log index is 0). */
  function NextIndex(id: Option<LogId>): nat {
    if id.Some? then id.value.index + 1 else 0
  }

  /** `es` carries the indices `from`, `from + 1`, ... */
  ghost predicate Consecutive(es: seq<Entry>, from: nat) {
    forall i | 0 <= i < |es| :: es[i].logId.index == from + i
  }
}
