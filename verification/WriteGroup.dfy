/**
 Group commit (db/db_impl.cc, BuildBatchGroup): the writer at the front of the queue takes
 the writers behind it along, in order, as far as the rules allow.
 */
module WriteGroup {
  import opened Wrappers
  import opened History

  datatype Op = Op(key: UserKey, kind: ValueType, value: Bytes)

  type Batch = seq<Op>

  /** A queued call of Write; size is the byte size of its batch. */
  datatype Writer = Writer(id: nat, batch: Option<Batch>, sync: bool, size: nat)

  const MAX_GROUP_SIZE: nat := 0x10_0000        // 1 << 20
  const SMALL_WRITE: nat := 0x2_0000            // 128 << 10

  /** How large the group led by a write of the given size may become. */
  function MaxSize(size: nat): nat {
    if size <= SMALL_WRITE then size + SMALL_WRITE else MAX_GROUP_SIZE
  }

  /** The total size of the batches among the writers. */
  function TotalSize(ws: seq<Writer>): nat {
    if ws == [] then 0
    else TotalSize(ws[..|ws| - 1]) + if ws[|ws| - 1].batch.Some? then ws[|ws| - 1].size else 0
  }

  /** The operations of all batches, in queue order. */
  function AllOps(ws: seq<Writer>): Batch {
    if ws == [] then []
    else AllOps(ws[..|ws| - 1]) + if ws[|ws| - 1].batch.Some? then ws[|ws| - 1].batch.value else []
  }

  /** Whether the group of the first n writers can take writer n in. */
  predicate Admits(ws: seq<Writer>, n: nat)
    requires 0 < n < |ws|
  {
    && !(ws[n].sync && !ws[0].sync)
    && (ws[n].batch.Some? ==> TotalSize(ws[..n + 1]) <= MaxSize(ws[0].size))
  }

  /** A group is a prefix of the queue each of whose followers was admitted. */
  ghost predicate Admissible(ws: seq<Writer>, n: nat) {
    && 0 < n <= |ws|
    && forall i :: 0 < i < n ==> Admits(ws, i)
  }

  /** The group the leader takes: admissible, and it stops only where the next writer is refused. */
  ghost predicate IsGroup(ws: seq<Writer>, n: nat) {
    && Admissible(ws, n)
    && (n < |ws| ==> !Admits(ws, n))
  }

  /** There is only one such group. */
  lemma GroupIsUnique(ws: seq<Writer>, n: nat, m: nat)
    requires IsGroup(ws, n) && IsGroup(ws, m)
    ensures n == m
  {
  }

  /** A sync writer is never in a group whose leader does not sync. */
  lemma SyncNeedsSyncLeader(ws: seq<Writer>, n: nat, i: nat)
    requires Admissible(ws, n) && i < n && ws[i].sync
    ensures ws[0].sync
  {
    if i > 0 { assert Admits(ws, i); }
  }

  /** The group stays within the limit set by its leader. */
  lemma {:induction false} GroupSizeBounded(ws: seq<Writer>, n: nat)
    requires Admissible(ws, n) && ws[0].batch.Some?
    ensures TotalSize(ws[..n]) <= if ws[0].size > MAX_GROUP_SIZE then ws[0].size else MaxSize(ws[0].size)
  {
    var last := ws[n - 1];
    assert ws[..n][..n - 1] == ws[..n - 1] && ws[..n][n - 1] == last;
    if n == 1 {
      assert TotalSize(ws[..0]) == 0;
    } else {
      GroupSizeBounded(ws, n - 1);
      assert Admits(ws, n - 1);
    }
  }

  /** sums[i] is the total size of the batches of the first i writers. */
  predicate RunningSizes(ws: seq<Writer>, sums: seq<nat>) {
    && |sums| == |ws| + 1 && sums[0] == 0
    && forall i :: 0 <= i < |ws| ==> sums[i + 1] == sums[i] + if ws[i].batch.Some? then ws[i].size else 0
  }

  /** offsets[i] is where the operations of writer i begin. */
  predicate RunningOffsets(ws: seq<Writer>, offsets: seq<nat>) {
    && |offsets| == |ws| + 1 && offsets[0] == 0
    && forall i :: 0 <= i < |ws| ==> offsets[i + 1] == offsets[i] + if ws[i].batch.Some? then |ws[i].batch.value| else 0
  }

  lemma {:induction false} TotalIsRunning(ws: seq<Writer>, sums: seq<nat>, n: nat)
    requires RunningSizes(ws, sums) && n <= |ws|
    ensures TotalSize(ws[..n]) == sums[n]
  {
    if n > 0 {
      TotalIsRunning(ws, sums, n - 1);
      assert ws[..n][..n - 1] == ws[..n - 1] && ws[..n][n - 1] == ws[n - 1];
      assert sums[n - 1 + 1] == sums[n];
    }
  }

  /**
   The group in numbers: each follower may join a leader that syncs, or does not sync itself,
   and keeps the size within 1 MB, or within 128 KB more than a leader of at most 128 KB; the
   next writer may not.
   */
  lemma GroupInNumbers(ws: seq<Writer>, sums: seq<nat>, n: nat)
    requires RunningSizes(ws, sums) && ws != []
    ensures var limit := if ws[0].size <= 131072 then ws[0].size + 131072 else 1048576;
            IsGroup(ws, n) <==>
              && 0 < n <= |ws|
              && (forall i :: 0 < i < n ==> (ws[i].sync ==> ws[0].sync) && (ws[i].batch.Some? ==> sums[i + 1] <= limit))
              && (n < |ws| ==> (ws[n].sync && !ws[0].sync) || (ws[n].batch.Some? && sums[n + 1] > limit))
  {
    forall i | 0 < i < |ws|
      ensures var limit := if ws[0].size <= 131072 then ws[0].size + 131072 else 1048576;
              Admits(ws, i) <==> (ws[i].sync ==> ws[0].sync) && (ws[i].batch.Some? ==> sums[i + 1] <= limit)
    {
      TotalIsRunning(ws, sums, i + 1);
    }
  }

  lemma {:induction false} OpsAreRunning(ws: seq<Writer>, offsets: seq<nat>, n: nat)
    requires RunningOffsets(ws, offsets) && n <= |ws|
    ensures |AllOps(ws[..n])| == offsets[n]
  {
    if n > 0 {
      OpsAreRunning(ws, offsets, n - 1);
      assert ws[..n][..n - 1] == ws[..n - 1] && ws[..n][n - 1] == ws[n - 1];
      assert offsets[n - 1 + 1] == offsets[n];
    }
  }

  /**
   The batches fill the operations of the group, one after the other and without gaps: they
   are as many as the batches have, and batch i is where the batches before it end.
   */
  lemma {:induction false} BatchesTile(ws: seq<Writer>, offsets: seq<nat>, n: nat, i: nat)
    requires RunningOffsets(ws, offsets) && i < n <= |ws| && ws[i].batch.Some?
    ensures |AllOps(ws[..n])| == offsets[n]
    ensures offsets[i] <= offsets[i + 1] <= offsets[n]
    ensures AllOps(ws[..n])[offsets[i]..offsets[i + 1]] == ws[i].batch.value
  {
    OpsAreRunning(ws, offsets, n);
    OpsAreRunning(ws, offsets, n - 1);
    assert ws[..n][..n - 1] == ws[..n - 1] && ws[..n][n - 1] == ws[n - 1];
    var before, all := AllOps(ws[..n - 1]), AllOps(ws[..n]);
    var last := if ws[n - 1].batch.Some? then ws[n - 1].batch.value else [];
    assert all == before + last;
    hide AllOps;
    assert offsets[i + 1] >= offsets[i];
    if i < n - 1 {
      BatchesTile(ws, offsets, n - 1, i);
      assert all[offsets[i]..offsets[i + 1]] == before[offsets[i]..offsets[i + 1]];
    } else {
      assert offsets[i + 1] == offsets[n];
    }
  }

  /** A batch is one contiguous run of its group's operations. */
  lemma {:induction false} BatchIsContiguous(ws: seq<Writer>, n: nat, i: nat) returns (from: nat)
    requires i < n <= |ws| && ws[i].batch.Some?
    ensures from + |ws[i].batch.value| <= |AllOps(ws[..n])|
    ensures AllOps(ws[..n])[from..from + |ws[i].batch.value|] == ws[i].batch.value
  {
    assert ws[..n][..n - 1] == ws[..n - 1] && ws[..n][n - 1] == ws[n - 1];
    if i == n - 1 {
      from := |AllOps(ws[..n - 1])|;
    } else {
      from := BatchIsContiguous(ws, n - 1, i);
    }
  }

  /** BuildBatchGroup: the combined batch and the position behind the last writer in it. */
  method BuildBatchGroup(ws: seq<Writer>) returns (result: Batch, count: nat)
    requires ws != [] && ws[0].batch.Some?
    ensures IsGroup(ws, count)
    ensures result == AllOps(ws[..count])
  {
    var first := ws[0];
    result := first.batch.value;
    var size := first.size;
    var maxSize: nat := 0x10_0000;
    if size <= 0x2_0000 {
      maxSize := size + 0x2_0000;
    }
    count := 1;
    assert ws[..1] == [first] && [first][..0] == [];
    while count < |ws|
      invariant Admissible(ws, count) && maxSize == MaxSize(first.size)
      invariant result == AllOps(ws[..count]) && size == TotalSize(ws[..count])
    {
      var w := ws[count];
      assert ws[..count + 1][..count] == ws[..count] && ws[..count + 1][count] == w;
      if w.sync && !first.sync {
        break;
      }
      if w.batch.Some? {
        size := size + w.size;
        if size > maxSize {
          break;
        }
        result := result + w.batch.value;
      }
      count := count + 1;
    }
  }
}
