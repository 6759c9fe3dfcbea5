/**
 The cost time series of the SOC API: call records are grouped by time bucket and server,
 totalled per server, and pivoted into one row per bucket.  Costs are integers.
 */
module CostSeries {
  import opened Prelude

  // at is None when the timestamp does not parse.
  datatype Record = Record(at: Option<int>, server: string, cost: int)

  datatype Slot = Slot(bucket: string, server: string, cost: int, calls: nat)

  // Where the buckets lie and how they are named: names have one fixed length.
  datatype Grid = Grid(start: int, width: int, bucketName: int -> string, nameLength: nat)

  ghost predicate ValidGrid(g: Grid) {
    g.width > 0 && forall i :: |g.bucketName(i)| == g.nameLength
  }

  predicate Counted(g: Grid, r: Record) {
    r.at.Some? && r.at.value >= g.start
  }

  function BucketOf(g: Grid, r: Record): string
    requires Counted(g, r) && g.width > 0
  {
    g.bucketName((r.at.value - g.start) / g.width)
  }

  function Key(bucket: string, server: string): string {
    bucket + "::" + server
  }

  // ---- Grouping ---------------------------------------------------------------------

  /** The map of the grouping loop, in insertion order: add to the slot with this key, or append one. */
  function Upsert(slots: seq<Slot>, bucket: string, server: string, cost: int): seq<Slot> {
    if slots == [] then [Slot(bucket, server, cost, 1)]
    else if Key(slots[0].bucket, slots[0].server) == Key(bucket, server) then
      [slots[0].(cost := slots[0].cost + cost, calls := slots[0].calls + 1)] + slots[1..]
    else [slots[0]] + Upsert(slots[1..], bucket, server, cost)
  }

  function Grouped(g: Grid, records: seq<Record>): seq<Slot>
    requires g.width > 0
  {
    if records == [] then []
    else
      var before, r := Grouped(g, records[..|records| - 1]), records[|records| - 1];
      if Counted(g, r) then Upsert(before, BucketOf(g, r), r.server, r.cost) else before
  }

  method Group(g: Grid, records: seq<Record>) returns (slots: seq<Slot>)
    requires g.width > 0
    ensures slots == Grouped(g, records)
  {
    slots := [];
    for i := 0 to |records|
      invariant slots == Grouped(g, records[..i])
    {
      assert records[..i + 1][..i] == records[..i];
      var r := records[i];
      if r.at.None? || r.at.value < g.start {
        continue;
      }
      slots := Upsert(slots, g.bucketName((r.at.value - g.start) / g.width), r.server, r.cost);
    }
    assert records[..|records|] == records;
  }

  /** A stable insertion sort by bucket, under any comparison of bucket names. */
  function SortByBucket(slots: seq<Slot>, after: (string, string) -> bool): seq<Slot> {
    if slots == [] then []
    else InsertSlot(SortByBucket(slots[..|slots| - 1], after), slots[|slots| - 1], after)
  }

  function InsertSlot(slots: seq<Slot>, s: Slot, after: (string, string) -> bool): seq<Slot> {
    if slots == [] || !after(slots[|slots| - 1].bucket, s.bucket) then slots + [s]
    else InsertSlot(slots[..|slots| - 1], s, after) + [slots[|slots| - 1]]
  }

  // ---- Totals -----------------------------------------------------------------------

  function Cost(slots: seq<Slot>): int {
    if slots == [] then 0 else Cost(slots[..|slots| - 1]) + slots[|slots| - 1].cost
  }

  function Calls(slots: seq<Slot>): nat {
    if slots == [] then 0 else Calls(slots[..|slots| - 1]) + slots[|slots| - 1].calls
  }

  /** Cost and calls of the slots of one server: filter, then reduce. */
  function ServerCost(slots: seq<Slot>, server: string): int {
    if slots == [] then 0
    else
      var s := slots[|slots| - 1];
      ServerCost(slots[..|slots| - 1], server) + if s.server == server then s.cost else 0
  }

  function ServerCalls(slots: seq<Slot>, server: string): nat {
    if slots == [] then 0
    else
      var s := slots[|slots| - 1];
      ServerCalls(slots[..|slots| - 1], server) + if s.server == server then s.calls else 0
  }

  function RecordCost(g: Grid, records: seq<Record>): int {
    if records == [] then 0
    else
      var r := records[|records| - 1];
      RecordCost(g, records[..|records| - 1]) + if Counted(g, r) then r.cost else 0
  }

  function RecordCalls(g: Grid, records: seq<Record>): nat {
    if records == [] then 0
    else RecordCalls(g, records[..|records| - 1]) + if Counted(g, records[|records| - 1]) then 1 else 0
  }

  lemma {:induction false} CostConcat(a: seq<Slot>, b: seq<Slot>)
    ensures Cost(a + b) == Cost(a) + Cost(b) && Calls(a + b) == Calls(a) + Calls(b)
  {
    if b == [] {
      assert a + b == a;
    } else {
      assert (a + b)[..|a + b| - 1] == a + b[..|b| - 1];
      CostConcat(a, b[..|b| - 1]);
    }
  }

  lemma {:induction false} UpsertAdds(slots: seq<Slot>, bucket: string, server: string, cost: int)
    ensures Cost(Upsert(slots, bucket, server, cost)) == Cost(slots) + cost
    ensures Calls(Upsert(slots, bucket, server, cost)) == Calls(slots) + 1
  {
    var r := Upsert(slots, bucket, server, cost);
    if slots == [] {
      assert r[..0] == [];
    } else {
      var s := slots[0];
      assert slots == [s] + slots[1..];
      CostConcat([s], slots[1..]);
      assert [s][..0] == [];
      if Key(s.bucket, s.server) == Key(bucket, server) {
        var t := s.(cost := s.cost + cost, calls := s.calls + 1);
        CostConcat([t], slots[1..]);
        assert [t][..0] == [];
      } else {
        CostConcat([s], Upsert(slots[1..], bucket, server, cost));
        UpsertAdds(slots[1..], bucket, server, cost);
      }
    }
  }

  /** The series costs exactly what the counted records cost, and has as many calls. */
  lemma {:induction false} GroupingConserves(g: Grid, records: seq<Record>)
    requires g.width > 0
    ensures Cost(Grouped(g, records)) == RecordCost(g, records)
    ensures Calls(Grouped(g, records)) == RecordCalls(g, records)
  {
    if records != [] {
      var before, r := records[..|records| - 1], records[|records| - 1];
      GroupingConserves(g, before);
      if Counted(g, r) {
        UpsertAdds(Grouped(g, before), BucketOf(g, r), r.server, r.cost);
      }
    }
  }

  // ---- One slot per bucket and server -----------------------------------------------

  predicate IsPair(s: Slot, bucket: string, server: string) {
    s.bucket == bucket && s.server == server
  }

  function PairCount(slots: seq<Slot>, bucket: string, server: string): nat {
    if slots == [] then 0
    else (if IsPair(slots[0], bucket, server) then 1 else 0) + PairCount(slots[1..], bucket, server)
  }

  ghost predicate OnePerPair(slots: seq<Slot>) {
    forall bucket, server :: PairCount(slots, bucket, server) <= 1
  }

  predicate FixedLength(slots: seq<Slot>, n: nat) {
    forall i :: 0 <= i < |slots| ==> |slots[i].bucket| == n
  }

  /** Bucket names of one length make keys unambiguous, whatever the server is called. */
  lemma KeyInjective(a: string, s: string, b: string, t: string)
    requires |a| == |b|
    ensures Key(a, s) == Key(b, t) <==> a == b && s == t
  {
    if Key(a, s) == Key(b, t) {
      assert a == Key(a, s)[..|a|] && b == Key(b, t)[..|b|];
      assert s == Key(a, s)[|a| + 2..] && t == Key(b, t)[|b| + 2..];
    }
  }

  lemma {:induction false} UpsertPairs(slots: seq<Slot>, bucket: string, server: string, cost: int,
                                       b: string, v: string)
    requires FixedLength(slots, |bucket|)
    ensures FixedLength(Upsert(slots, bucket, server, cost), |bucket|)
    ensures var n, hit := PairCount(slots, b, v), b == bucket && v == server;
            PairCount(Upsert(slots, bucket, server, cost), b, v) == if hit && n == 0 then 1 else n
  {
    var r := Upsert(slots, bucket, server, cost);
    if slots != [] {
      KeyInjective(slots[0].bucket, slots[0].server, bucket, server);
      if Key(slots[0].bucket, slots[0].server) == Key(bucket, server) {
        assert r[1..] == slots[1..];
      } else {
        UpsertPairs(slots[1..], bucket, server, cost, b, v);
        assert r[1..] == Upsert(slots[1..], bucket, server, cost);
      }
    }
  }

  lemma {:induction false} GroupedPairs(g: Grid, records: seq<Record>)
    requires ValidGrid(g)
    ensures OnePerPair(Grouped(g, records)) && FixedLength(Grouped(g, records), g.nameLength)
  {
    if records != [] {
      var before, r := records[..|records| - 1], records[|records| - 1];
      GroupedPairs(g, before);
      if Counted(g, r) {
        UpsertPairs(Grouped(g, before), BucketOf(g, r), r.server, r.cost, "", "");
        forall b, v ensures PairCount(Grouped(g, records), b, v) <= 1 {
          UpsertPairs(Grouped(g, before), BucketOf(g, r), r.server, r.cost, b, v);
        }
      }
    }
  }

  lemma {:induction false} PairCountLast(slots: seq<Slot>, s: Slot, b: string, v: string)
    ensures PairCount(slots + [s], b, v) == PairCount(slots, b, v) + if IsPair(s, b, v) then 1 else 0
  {
    if slots == [] {
      assert [s][1..] == [];
      assert slots + [s] == [s];
    } else {
      assert (slots + [s])[1..] == slots[1..] + [s];
      PairCountLast(slots[1..], s, b, v);
    }
  }

  lemma {:induction false} InsertSlotPairs(slots: seq<Slot>, s: Slot, after: (string, string) -> bool,
                                           b: string, v: string)
    ensures PairCount(InsertSlot(slots, s, after), b, v) == PairCount(slots, b, v) + if IsPair(s, b, v) then 1 else 0
  {
    PairCountLast(slots, s, b, v);
    if !(slots == [] || !after(slots[|slots| - 1].bucket, s.bucket)) {
      var before, last := slots[..|slots| - 1], slots[|slots| - 1];
      InsertSlotPairs(before, s, after, b, v);
      PairCountLast(InsertSlot(before, s, after), last, b, v);
      PairCountLast(before, last, b, v);
      assert slots == before + [last];
    }
  }

  lemma {:induction false} SortingKeepsPairs(slots: seq<Slot>, after: (string, string) -> bool, b: string, v: string)
    ensures PairCount(SortByBucket(slots, after), b, v) == PairCount(slots, b, v)
  {
    if slots != [] {
      var before, last := slots[..|slots| - 1], slots[|slots| - 1];
      SortingKeepsPairs(before, after, b, v);
      InsertSlotPairs(SortByBucket(before, after), last, after, b, v);
      PairCountLast(before, last, b, v);
      assert slots == before + [last];
    }
  }

  lemma {:induction false} InsertSlotAdds(slots: seq<Slot>, s: Slot, after: (string, string) -> bool)
    ensures Cost(InsertSlot(slots, s, after)) == Cost(slots) + s.cost
    ensures Calls(InsertSlot(slots, s, after)) == Calls(slots) + s.calls
  {
    if !(slots == [] || !after(slots[|slots| - 1].bucket, s.bucket)) {
      InsertSlotAdds(slots[..|slots| - 1], s, after);
    }
  }

  /** Sorting changes neither totals nor slots. */
  lemma {:induction false} SortingConserves(slots: seq<Slot>, after: (string, string) -> bool)
    ensures Cost(SortByBucket(slots, after)) == Cost(slots) && Calls(SortByBucket(slots, after)) == Calls(slots)
  {
    if slots != [] {
      SortingConserves(slots[..|slots| - 1], after);
      InsertSlotAdds(SortByBucket(slots[..|slots| - 1], after), slots[|slots| - 1], after);
    }
  }

  // ---- Servers, buckets and the pivot -----------------------------------------------

  predicate Distinct(names: seq<string>) {
    forall i, j :: 0 <= i < j < |names| ==> names[i] != names[j]
  }

  /** Array.from(new Set(...)): the servers in order of first occurrence. */
  function Servers(slots: seq<Slot>): seq<string> {
    if slots == [] then []
    else
      var before, s := Servers(slots[..|slots| - 1]), slots[|slots| - 1].server;
      if s in before then before else before + [s]
  }

  function Buckets(slots: seq<Slot>): seq<string> {
    if slots == [] then []
    else
      var before, b := Buckets(slots[..|slots| - 1]), slots[|slots| - 1].bucket;
      if b in before then before else before + [b]
  }

  lemma {:induction false} NamesCover(slots: seq<Slot>)
    ensures Distinct(Servers(slots)) && Distinct(Buckets(slots))
    ensures forall s :: s in slots ==> s.server in Servers(slots) && s.bucket in Buckets(slots)
  {
    if slots != [] {
      NamesCover(slots[..|slots| - 1]);
      assert slots == slots[..|slots| - 1] + [slots[|slots| - 1]];
    }
  }

  /** The cost found for a bucket and a server: that of the first such slot, or zero. */
  function Found(slots: seq<Slot>, bucket: string, server: string): int {
    if slots == [] then 0
    else if IsPair(slots[0], bucket, server) then slots[0].cost
    else Found(slots[1..], bucket, server)
  }

  // A row is a JavaScript object: the bucket, the total and one property per server.
  datatype Cell = Text(s: string) | Num(n: int)

  /** The row after the first k servers. */
  function RowAfter(slots: seq<Slot>, servers: seq<string>, bucket: string, k: nat): (row: map<string, Cell>)
    requires k <= |servers|
    ensures "total" in row && row["total"].Num? && "bucket" in row
  {
    if k == 0 then map["bucket" := Text(bucket), "total" := Num(0)]
    else
      var cost := Found(slots, bucket, servers[k - 1]);
      var row := RowAfter(slots, servers, bucket, k - 1)[servers[k - 1] := Num(cost)];
      row["total" := Num(row["total"].n + cost)]
  }

  method PivotRow(slots: seq<Slot>, servers: seq<string>, bucket: string) returns (row: map<string, Cell>)
    ensures row == RowAfter(slots, servers, bucket, |servers|)
  {
    row := map["bucket" := Text(bucket), "total" := Num(0)];
    for k := 0 to |servers|
      invariant row == RowAfter(slots, servers, bucket, k)
    {
      var cost := Found(slots, bucket, servers[k]);
      row := row[servers[k] := Num(cost)];
      row := row["total" := Num(row["total"].n + cost)];
    }
  }

  /** What the row should total: the costs found for the first k servers. */
  function FoundSum(slots: seq<Slot>, servers: seq<string>, bucket: string, k: nat): int
    requires k <= |servers|
  {
    if k == 0 then 0 else FoundSum(slots, servers, bucket, k - 1) + Found(slots, bucket, servers[k - 1])
  }

  /** A row is right as long as no server carries the name of one of its own columns. */
  lemma {:induction false} RowIsRight(slots: seq<Slot>, servers: seq<string>, bucket: string, k: nat)
    requires k <= |servers| && Distinct(servers) && "total" !in servers
    ensures var row := RowAfter(slots, servers, bucket, k);
            && row["total"] == Num(FoundSum(slots, servers, bucket, k))
            && (forall i :: 0 <= i < k ==>
                  servers[i] in row && row[servers[i]] == Num(Found(slots, bucket, servers[i])))
            && ("bucket" !in servers ==> row["bucket"] == Text(bucket))
  {
    if k > 0 {
      RowIsRight(slots, servers, bucket, k - 1);
      assert servers[k - 1] in servers;
    }
  }

  /**
   A server called "total" at position p makes the row's total forget the servers before it
   and count that server twice: the total is right only if the two happen to cancel.
   */
  lemma {:induction false} ServerNamedTotal(slots: seq<Slot>, servers: seq<string>, bucket: string, p: nat, k: nat)
    requires p < k <= |servers| && Distinct(servers) && servers[p] == "total"
    ensures var own, before := Found(slots, bucket, "total"), FoundSum(slots, servers, bucket, p);
            var row, sum := RowAfter(slots, servers, bucket, k), FoundSum(slots, servers, bucket, k);
            && row["total"].n == sum + own - before
            && (row["total"] == Num(sum) <==> own == before)
  {
    if k > p + 1 {
      ServerNamedTotal(slots, servers, bucket, p, k - 1);
      assert servers[k - 1] != servers[p];
    }
  }

  // ---- The pivot conserves the total ------------------------------------------------

  /** Cost of all slots of a bucket and a server. */
  function PairCost(slots: seq<Slot>, bucket: string, server: string): int {
    if slots == [] then 0
    else
      (if IsPair(slots[0], bucket, server) then slots[0].cost else 0)
      + PairCost(slots[1..], bucket, server)
  }

  lemma {:induction false} FoundIsPairCost(slots: seq<Slot>, bucket: string, server: string)
    requires PairCount(slots, bucket, server) <= 1
    ensures Found(slots, bucket, server) == PairCost(slots, bucket, server)
    ensures PairCount(slots, bucket, server) == 0 ==> PairCost(slots, bucket, server) == 0
  {
    if slots != [] {
      FoundIsPairCost(slots[1..], bucket, server);
    }
  }

  function RowSum(slots: seq<Slot>, bucket: string, servers: seq<string>): int {
    if servers == [] then 0
    else RowSum(slots, bucket, servers[..|servers| - 1]) + PairCost(slots, bucket, servers[|servers| - 1])
  }

  function GridSum(slots: seq<Slot>, buckets: seq<string>, servers: seq<string>): int {
    if buckets == [] then 0
    else GridSum(slots, buckets[..|buckets| - 1], servers) + RowSum(slots, buckets[|buckets| - 1], servers)
  }

  lemma {:induction false} RowSumHead(slots: seq<Slot>, bucket: string, servers: seq<string>)
    requires slots != [] && Distinct(servers)
    ensures RowSum(slots, bucket, servers)
         == RowSum(slots[1..], bucket, servers)
            + if slots[0].bucket == bucket && slots[0].server in servers then slots[0].cost else 0
  {
    if servers != [] {
      var before, last := servers[..|servers| - 1], servers[|servers| - 1];
      RowSumHead(slots, bucket, before);
      assert servers == before + [last];
      assert last !in before;
    }
  }

  lemma {:induction false} GridSumHead(slots: seq<Slot>, buckets: seq<string>, servers: seq<string>)
    requires slots != [] && Distinct(servers) && Distinct(buckets)
    ensures GridSum(slots, buckets, servers)
         == GridSum(slots[1..], buckets, servers)
            + if slots[0].bucket in buckets && slots[0].server in servers then slots[0].cost else 0
  {
    if buckets != [] {
      var before, last := buckets[..|buckets| - 1], buckets[|buckets| - 1];
      GridSumHead(slots, before, servers);
      RowSumHead(slots, last, servers);
      assert buckets == before + [last];
      assert last !in before;
    }
  }

  lemma {:induction false} GridSumIsCost(slots: seq<Slot>, buckets: seq<string>, servers: seq<string>)
    requires Distinct(servers) && Distinct(buckets)
    requires forall s :: s in slots ==> s.bucket in buckets && s.server in servers
    ensures GridSum(slots, buckets, servers) == Cost(slots)
  {
    if slots == [] {
      GridSumEmpty(buckets, servers);
    } else {
      GridSumHead(slots, buckets, servers);
      GridSumIsCost(slots[1..], buckets, servers);
      assert slots == [slots[0]] + slots[1..];
      CostConcat([slots[0]], slots[1..]);
      assert [slots[0]][..0] == [];
    }
  }

  lemma {:induction false} GridSumEmpty(buckets: seq<string>, servers: seq<string>)
    ensures GridSum([], buckets, servers) == 0
  {
    if buckets != [] {
      GridSumEmpty(buckets[..|buckets| - 1], servers);
      RowSumEmpty(buckets[|buckets| - 1], servers);
    }
  }

  lemma {:induction false} RowSumEmpty(bucket: string, servers: seq<string>)
    ensures RowSum([], bucket, servers) == 0
  {
    if servers != [] {
      RowSumEmpty(bucket, servers[..|servers| - 1]);
    }
  }

  lemma {:induction false} FoundSumIsRowSum(slots: seq<Slot>, servers: seq<string>, bucket: string, k: nat)
    requires OnePerPair(slots) && k <= |servers|
    ensures FoundSum(slots, servers, bucket, k) == RowSum(slots, bucket, servers[..k])
  {
    if k > 0 {
      FoundSumIsRowSum(slots, servers, bucket, k - 1);
      FoundIsPairCost(slots, bucket, servers[k - 1]);
      assert servers[..k][..k - 1] == servers[..k - 1];
    }
  }

  /** The totals of the pivoted rows, added up. */
  function PivotTotal(slots: seq<Slot>, buckets: seq<string>, servers: seq<string>): int {
    if buckets == [] then 0
    else
      PivotTotal(slots, buckets[..|buckets| - 1], servers)
      + RowAfter(slots, servers, buckets[|buckets| - 1], |servers|)["total"].n
  }

  lemma {:induction false} PivotIsGrid(slots: seq<Slot>, buckets: seq<string>, servers: seq<string>)
    requires OnePerPair(slots) && Distinct(servers) && "total" !in servers
    ensures PivotTotal(slots, buckets, servers) == GridSum(slots, buckets, servers)
  {
    if buckets != [] {
      PivotIsGrid(slots, buckets[..|buckets| - 1], servers);
      var last := buckets[|buckets| - 1];
      RowIsRight(slots, servers, last, |servers|);
      FoundSumIsRowSum(slots, servers, last, |servers|);
      assert servers[..|servers|] == servers;
    }
  }

  /** The cost of a server, bucket by bucket. */
  function ColumnSum(slots: seq<Slot>, buckets: seq<string>, server: string): int {
    if buckets == [] then 0
    else ColumnSum(slots, buckets[..|buckets| - 1], server) + PairCost(slots, buckets[|buckets| - 1], server)
  }

  /** One column and some columns of the grid, when a row counts the first one twice and forgets the others. */
  lemma {:induction false} PivotWithTotal(slots: seq<Slot>, buckets: seq<string>, servers: seq<string>, p: nat)
    requires OnePerPair(slots) && Distinct(servers) && p < |servers| && servers[p] == "total"
    ensures PivotTotal(slots, buckets, servers)
         == GridSum(slots, buckets, servers) + ColumnSum(slots, buckets, "total")
            - GridSum(slots, buckets, servers[..p])
  {
    if buckets != [] {
      PivotWithTotal(slots, buckets[..|buckets| - 1], servers, p);
      var last := buckets[|buckets| - 1];
      ServerNamedTotal(slots, servers, last, p, |servers|);
      FoundSumIsRowSum(slots, servers, last, |servers|);
      FoundSumIsRowSum(slots, servers, last, p);
      FoundIsPairCost(slots, last, "total");
      assert servers[..|servers|] == servers;
    }
  }

  lemma {:induction false} ColumnIsServer(slots: seq<Slot>, buckets: seq<string>, server: string)
    ensures ColumnSum(slots, buckets, server) == GridSum(slots, buckets, [server])
  {
    if buckets != [] {
      ColumnIsServer(slots, buckets[..|buckets| - 1], server);
      var last := buckets[|buckets| - 1];
      assert [server][..0] == [];
      assert RowSum(slots, last, [server]) == RowSum(slots, last, []) + PairCost(slots, last, server);
    }
  }

  /** The per-server totals, added up. */
  function ServersCost(slots: seq<Slot>, servers: seq<string>): int {
    if servers == [] then 0
    else ServersCost(slots, servers[..|servers| - 1]) + ServerCost(slots, servers[|servers| - 1])
  }

  function ServersCalls(slots: seq<Slot>, servers: seq<string>): nat {
    if servers == [] then 0
    else ServersCalls(slots, servers[..|servers| - 1]) + ServerCalls(slots, servers[|servers| - 1])
  }

  lemma {:induction false} ServersPeel(slots: seq<Slot>, servers: seq<string>)
    requires slots != [] && Distinct(servers)
    ensures var before, s := slots[..|slots| - 1], slots[|slots| - 1];
            var hit := s.server in servers;
            && ServersCost(slots, servers) == ServersCost(before, servers) + (if hit then s.cost else 0)
            && ServersCalls(slots, servers) == ServersCalls(before, servers) + (if hit then s.calls else 0)
  {
    if servers != [] {
      var rest, last := servers[..|servers| - 1], servers[|servers| - 1];
      ServersPeel(slots, rest);
      assert servers == rest + [last];
      assert last !in rest;
    }
  }

  lemma {:induction false} ServersConserve(slots: seq<Slot>, servers: seq<string>)
    requires Distinct(servers) && forall s :: s in slots ==> s.server in servers
    ensures ServersCost(slots, servers) == Cost(slots) && ServersCalls(slots, servers) == Calls(slots)
  {
    if slots == [] {
      ServersEmpty(servers);
    } else {
      ServersPeel(slots, servers);
      ServersConserve(slots[..|slots| - 1], servers);
    }
  }

  lemma {:induction false} ServersEmpty(servers: seq<string>)
    ensures ServersCost([], servers) == 0 && ServersCalls([], servers) == 0
  {
    if servers != [] {
      ServersEmpty(servers[..|servers| - 1]);
    }
  }

  // ---- Each slot holds its own records ----------------------------------------------

  /** The record lies in the bucket with this number and name, at or after the start. */
  predicate LiesIn(g: Grid, r: Record, i: nat, bucket: string) {
    r.at.Some? && g.bucketName(i) == bucket && g.start + i * g.width <= r.at.value < g.start + (i + 1) * g.width
  }

  ghost predicate LiesInBucket(g: Grid, r: Record, bucket: string) {
    exists i: nat :: LiesIn(g, r, i, bucket)
  }

  lemma DivUnique(d: int, width: int, i: nat)
    requires width > 0 && i * width <= d < (i + 1) * width
    ensures d / width == i
  {
    var q := d / width;
    assert d == q * width + d % width;
    MulStep(q, i, width);
    MulStep(q, i + 1, width);
  }

  lemma QuotientBounds(d: nat, width: int)
    requires width > 0
    ensures d / width >= 0 && d / width * width <= d < (d / width + 1) * width
  {
    var q := d / width;
    assert d == q * width + d % width;
    assert (q + 1) * width == q * width + width;
    MulStep(q, 0, width);
  }

  lemma BucketMeans(g: Grid, r: Record, bucket: string)
    requires g.width > 0
    ensures LiesInBucket(g, r, bucket) <==> Counted(g, r) && BucketOf(g, r) == bucket
  {
    if Counted(g, r) {
      var d := r.at.value - g.start;
      QuotientBounds(d, g.width);
      assert BucketOf(g, r) == bucket ==> LiesIn(g, r, d / g.width, bucket);
    }
    forall i: nat | LiesIn(g, r, i, bucket) ensures Counted(g, r) && BucketOf(g, r) == bucket {
      MulSign(i, g.width);
      DivUnique(r.at.value - g.start, g.width, i);
    }
  }

  /** The cost of the records of a server in a bucket, and their number. */
  ghost function PairRecordCost(g: Grid, records: seq<Record>, bucket: string, server: string): int {
    if records == [] then 0
    else
      var r := records[|records| - 1];
      PairRecordCost(g, records[..|records| - 1], bucket, server)
      + if LiesInBucket(g, r, bucket) && r.server == server then r.cost else 0
  }

  ghost function PairRecordCalls(g: Grid, records: seq<Record>, bucket: string, server: string): nat {
    if records == [] then 0
    else
      var r := records[|records| - 1];
      PairRecordCalls(g, records[..|records| - 1], bucket, server)
      + if LiesInBucket(g, r, bucket) && r.server == server then 1 else 0
  }

  function PairCalls(slots: seq<Slot>, bucket: string, server: string): nat {
    if slots == [] then 0
    else
      (if IsPair(slots[0], bucket, server) then slots[0].calls else 0)
      + PairCalls(slots[1..], bucket, server)
  }

  lemma {:induction false} UpsertPairAdds(slots: seq<Slot>, bucket: string, server: string, cost: int,
                                          b: string, v: string)
    requires FixedLength(slots, |bucket|)
    ensures var r, hit := Upsert(slots, bucket, server, cost), b == bucket && v == server;
            && PairCost(r, b, v) == PairCost(slots, b, v) + (if hit then cost else 0)
            && PairCalls(r, b, v) == PairCalls(slots, b, v) + (if hit then 1 else 0)
  {
    var r := Upsert(slots, bucket, server, cost);
    if slots == [] {
      assert r[1..] == [];
    } else {
      KeyInjective(slots[0].bucket, slots[0].server, bucket, server);
      if Key(slots[0].bucket, slots[0].server) == Key(bucket, server) {
        assert r[1..] == slots[1..];
      } else {
        UpsertPairAdds(slots[1..], bucket, server, cost, b, v);
        assert r[1..] == Upsert(slots[1..], bucket, server, cost);
      }
    }
  }

  lemma {:induction false} GroupedPairCost(g: Grid, records: seq<Record>, b: string, v: string)
    requires ValidGrid(g)
    ensures PairCost(Grouped(g, records), b, v) == PairRecordCost(g, records, b, v)
    ensures PairCalls(Grouped(g, records), b, v) == PairRecordCalls(g, records, b, v)
  {
    if records != [] {
      var before, r := records[..|records| - 1], records[|records| - 1];
      GroupedPairCost(g, before, b, v);
      BucketMeans(g, r, b);
      if Counted(g, r) {
        GroupedPairs(g, before);
        UpsertPairAdds(Grouped(g, before), BucketOf(g, r), r.server, r.cost, b, v);
      }
    }
  }

  lemma {:induction false} PairCostLast(slots: seq<Slot>, s: Slot, b: string, v: string)
    ensures PairCost(slots + [s], b, v) == PairCost(slots, b, v) + (if IsPair(s, b, v) then s.cost else 0)
    ensures PairCalls(slots + [s], b, v) == PairCalls(slots, b, v) + (if IsPair(s, b, v) then s.calls else 0)
  {
    if slots == [] {
      assert [s][1..] == [] && slots + [s] == [s];
    } else {
      assert (slots + [s])[1..] == slots[1..] + [s];
      PairCostLast(slots[1..], s, b, v);
    }
  }

  lemma {:induction false} InsertSlotPairCost(slots: seq<Slot>, s: Slot, after: (string, string) -> bool,
                                              b: string, v: string)
    ensures var r := InsertSlot(slots, s, after);
            && PairCost(r, b, v) == PairCost(slots, b, v) + (if IsPair(s, b, v) then s.cost else 0)
            && PairCalls(r, b, v) == PairCalls(slots, b, v) + (if IsPair(s, b, v) then s.calls else 0)
  {
    PairCostLast(slots, s, b, v);
    if !(slots == [] || !after(slots[|slots| - 1].bucket, s.bucket)) {
      var before, last := slots[..|slots| - 1], slots[|slots| - 1];
      InsertSlotPairCost(before, s, after, b, v);
      PairCostLast(InsertSlot(before, s, after), last, b, v);
      PairCostLast(before, last, b, v);
      assert slots == before + [last];
    }
  }

  lemma {:induction false} SortingKeepsPairCost(slots: seq<Slot>, after: (string, string) -> bool, b: string, v: string)
    ensures PairCost(SortByBucket(slots, after), b, v) == PairCost(slots, b, v)
    ensures PairCalls(SortByBucket(slots, after), b, v) == PairCalls(slots, b, v)
  {
    if slots != [] {
      var before, last := slots[..|slots| - 1], slots[|slots| - 1];
      SortingKeepsPairCost(before, after, b, v);
      InsertSlotPairCost(SortByBucket(before, after), last, after, b, v);
      PairCostLast(before, last, b, v);
      assert slots == before + [last];
    }
  }

  lemma {:induction false} SlotIsPair(slots: seq<Slot>, s: Slot)
    requires s in slots && PairCount(slots, s.bucket, s.server) <= 1
    ensures PairCost(slots, s.bucket, s.server) == s.cost && PairCalls(slots, s.bucket, s.server) == s.calls
  {
    var rest := slots[1..];
    assert slots == [slots[0]] + rest;
    if IsPair(slots[0], s.bucket, s.server) {
      NoPairNoCost(rest, s.bucket, s.server);
      if s in rest {
        PairCounted(rest, s);
      }
    } else {
      SlotIsPair(rest, s);
    }
  }

  lemma {:induction false} PairCounted(slots: seq<Slot>, s: Slot)
    requires s in slots
    ensures PairCount(slots, s.bucket, s.server) > 0
  {
    assert slots == [slots[0]] + slots[1..];
    if s != slots[0] {
      PairCounted(slots[1..], s);
    }
  }

  lemma {:induction false} NoPairNoCost(slots: seq<Slot>, b: string, v: string)
    requires PairCount(slots, b, v) == 0
    ensures PairCost(slots, b, v) == 0 && PairCalls(slots, b, v) == 0
  {
    if slots != [] {
      NoPairNoCost(slots[1..], b, v);
    }
  }

  /**
   Every slot of the series, and every cell of the pivot, holds the cost of exactly the records
   of its server that lie in its bucket's stretch of time; a slot also holds their number.
   */
  lemma SlotsHoldTheirRecords(g: Grid, records: seq<Record>, after: (string, string) -> bool)
    requires ValidGrid(g)
    ensures var series := SortByBucket(Grouped(g, records), after);
            && (forall s :: s in series ==>
                  && s.cost == PairRecordCost(g, records, s.bucket, s.server)
                  && s.calls == PairRecordCalls(g, records, s.bucket, s.server))
            && (forall bucket, server ::
                  Found(series, bucket, server) == PairRecordCost(g, records, bucket, server))
  {
    var series := SortByBucket(Grouped(g, records), after);
    SeriesFacts(g, records, after);
    forall b, v
      ensures PairCost(series, b, v) == PairRecordCost(g, records, b, v)
      ensures PairCalls(series, b, v) == PairRecordCalls(g, records, b, v)
      ensures Found(series, b, v) == PairRecordCost(g, records, b, v)
    {
      GroupedPairCost(g, records, b, v);
      SortingKeepsPairCost(Grouped(g, records), after, b, v);
      FoundIsPairCost(series, b, v);
    }
    forall s | s in series
      ensures s.cost == PairRecordCost(g, records, s.bucket, s.server)
      ensures s.calls == PairRecordCalls(g, records, s.bucket, s.server)
    {
      SlotIsPair(series, s);
    }
  }

  /** The comparison is a total preorder. */
  ghost predicate Orders(after: (string, string) -> bool) {
    && (forall a, b :: after(a, b) ==> !after(b, a))
    && (forall a, b, c :: !after(a, b) && !after(b, c) ==> !after(a, c))
  }

  predicate InOrder(slots: seq<Slot>, after: (string, string) -> bool) {
    forall i, j :: 0 <= i < j < |slots| ==> !after(slots[i].bucket, slots[j].bucket)
  }

  lemma {:induction false} InsertSlotInOrder(slots: seq<Slot>, s: Slot, after: (string, string) -> bool)
    requires Orders(after) && InOrder(slots, after)
    ensures InOrder(InsertSlot(slots, s, after), after)
    ensures forall t :: t in InsertSlot(slots, s, after) ==> t == s || t in slots
  {
    if !(slots == [] || !after(slots[|slots| - 1].bucket, s.bucket)) {
      var before, last := slots[..|slots| - 1], slots[|slots| - 1];
      InsertSlotInOrder(before, s, after);
      var r := InsertSlot(before, s, after);
      assert slots == before + [last];
      forall t | t in r ensures !after(t.bucket, last.bucket) {
        if t in before {
          var i :| 0 <= i < |before| && before[i] == t;
          assert slots[i] == t;
        }
      }
    } else {
      forall i | 0 <= i < |slots| ensures !after(slots[i].bucket, s.bucket) {
        assert i < |slots| - 1 ==> !after(slots[i].bucket, slots[|slots| - 1].bucket);
      }
    }
  }

  /** The series is in the order of its buckets. */
  lemma {:induction false} SeriesInOrder(slots: seq<Slot>, after: (string, string) -> bool)
    requires Orders(after)
    ensures InOrder(SortByBucket(slots, after), after)
  {
    if slots != [] {
      SeriesInOrder(slots[..|slots| - 1], after);
      InsertSlotInOrder(SortByBucket(slots[..|slots| - 1], after), slots[|slots| - 1], after);
    }
  }

  /** Some columns of the grid add up to the totals of their servers. */
  lemma {:induction false} GridIsServers(slots: seq<Slot>, buckets: seq<string>, servers: seq<string>)
    requires Distinct(servers) && Distinct(buckets) && forall s :: s in slots ==> s.bucket in buckets
    ensures GridSum(slots, buckets, servers) == ServersCost(slots, servers)
    decreases |slots|
  {
    if slots == [] {
      GridSumEmpty(buckets, servers);
      ServersEmpty(servers);
    } else {
      GridSumHead(slots, buckets, servers);
      ServersHead(slots, servers);
      GridIsServers(slots[1..], buckets, servers);
    }
  }

  lemma {:induction false} ServersHead(slots: seq<Slot>, servers: seq<string>)
    requires slots != [] && Distinct(servers)
    ensures ServersCost(slots, servers)
         == ServersCost(slots[1..], servers) + if slots[0].server in servers then slots[0].cost else 0
    decreases |slots|
  {
    ServersPeel(slots, servers);
    var before := slots[..|slots| - 1];
    if before == [] {
      ServersEmpty(servers);
      assert slots[1..] == [];
    } else {
      ServersHead(before, servers);
      ServersPeel(slots[1..], servers);
      assert slots[1..][..|slots| - 2] == before[1..];
    }
  }

  /**
   With a server named "total" at position p the pivoted rows add up to the cost with that
   server counted twice and those before it left out: to the cost itself if and only if the
   two cancel.
   */
  lemma PivotOffByTotal(slots: seq<Slot>, buckets: seq<string>, servers: seq<string>, p: nat)
    requires OnePerPair(slots) && Distinct(servers) && Distinct(buckets) && p < |servers| && servers[p] == "total"
    requires forall s :: s in slots ==> s.bucket in buckets && s.server in servers
    ensures var own, before := ServerCost(slots, "total"), ServersCost(slots, servers[..p]);
            && PivotTotal(slots, buckets, servers) == Cost(slots) + own - before
            && (PivotTotal(slots, buckets, servers) == Cost(slots) <==> own == before)
  {
    PivotWithTotal(slots, buckets, servers, p);
    GridSumIsCost(slots, buckets, servers);
    GridIsServers(slots, buckets, servers[..p]);
    ColumnIsServer(slots, buckets, "total");
    GridIsServers(slots, buckets, ["total"]);
    assert ["total"][..0] == [];
    assert ServersCost(slots, ["total"]) == ServersCost(slots, []) + ServerCost(slots, "total");
  }

  /** Where a server named "total" comes in the order of the columns, if there is one. */
  function TotalAt(servers: seq<string>): (p: nat)
    ensures p <= |servers| && "total" !in servers[..p] && (p < |servers| ==> servers[p] == "total")
    ensures p == |servers| ==> "total" !in servers
  {
    if servers == [] || servers[0] == "total" then 0 else 1 + TotalAt(servers[1..])
  }

  /**
   The views agree for all records: the series and the totals per server add up to the cost
   and the number of exactly the counted records, no bucket and server appear together twice,
   and the pivoted rows add up to the same cost if and only if no server is named "total", or
   its cost happens to equal that of the servers before it.  Any order of the buckets will do.
   */
  lemma ViewsAgree(g: Grid, records: seq<Record>, after: (string, string) -> bool, buckets: seq<string>)
    requires ValidGrid(g)
    requires var series := SortByBucket(Grouped(g, records), after);
             multiset(buckets) == multiset(Buckets(series)) && Distinct(buckets)
    ensures var series := SortByBucket(Grouped(g, records), after);
            && OnePerPair(series)
            && Cost(series) == RecordCost(g, records) && Calls(series) == RecordCalls(g, records)
            && ServersCost(series, Servers(series)) == RecordCost(g, records)
            && ServersCalls(series, Servers(series)) == RecordCalls(g, records)
    ensures var series := SortByBucket(Grouped(g, records), after);
            var servers := Servers(series);
            var total, p := PivotTotal(series, buckets, servers), TotalAt(servers);
            && (total == RecordCost(g, records) <==>
                  p == |servers| || ServerCost(series, "total") == ServersCost(series, servers[..p]))
            && (p < |servers| ==>
                  total == RecordCost(g, records) + ServerCost(series, "total") - ServersCost(series, servers[..p]))
  {
    var series := SortByBucket(Grouped(g, records), after);
    var servers := Servers(series);
    SeriesFacts(g, records, after);
    NamesCover(series);
    ServersConserve(series, servers);
    forall s | s in series ensures s.bucket in buckets {
      assert s.bucket in multiset(Buckets(series));
    }
    if TotalAt(servers) == |servers| {
      PivotIsGrid(series, buckets, servers);
      GridSumIsCost(series, buckets, servers);
    } else {
      PivotOffByTotal(series, buckets, servers, TotalAt(servers));
    }
  }

  lemma SeriesFacts(g: Grid, records: seq<Record>, after: (string, string) -> bool)
    requires ValidGrid(g)
    ensures var series := SortByBucket(Grouped(g, records), after);
            OnePerPair(series) && Cost(series) == RecordCost(g, records) && Calls(series) == RecordCalls(g, records)
  {
    GroupedPairs(g, records);
    GroupingConserves(g, records);
    SortingConserves(Grouped(g, records), after);
    forall b, v ensures PairCount(SortByBucket(Grouped(g, records), after), b, v) <= 1 {
      SortingKeepsPairs(Grouped(g, records), after, b, v);
    }
  }

  /** The slots of two records at the start, one of a server "a" and one of a server "total". */
  function TwoServers(g: Grid, a: int, t: int): seq<Slot> {
    [Slot(g.bucketName(0), "a", a, 1), Slot(g.bucketName(0), "total", t, 1)]
  }

  lemma GroupedTwo(g: Grid, r1: Record, r2: Record)
    requires g.width > 0 && Counted(g, r1) && Counted(g, r2)
    ensures Grouped(g, [r1, r2])
         == Upsert([Slot(BucketOf(g, r1), r1.server, r1.cost, 1)], BucketOf(g, r2), r2.server, r2.cost)
  {
    assert [r1][..0] == [];
    assert Grouped(g, [r1]) == Upsert([], BucketOf(g, r1), r1.server, r1.cost);
    var records := [r1, r2];
    assert records[..|records| - 1] == [r1];
    assert Grouped(g, records) == Upsert(Grouped(g, [r1]), BucketOf(g, r2), r2.server, r2.cost);
  }

  lemma UpsertOther(s: Slot, server: string, cost: int)
    requires s.server != server
    ensures Upsert([s], s.bucket, server, cost) == [s, Slot(s.bucket, server, cost, 1)]
  {
    KeyInjective(s.bucket, s.server, s.bucket, server);
    assert [s][1..] == [];
  }

  lemma SortedTwo(s: Slot, t: Slot, after: (string, string) -> bool)
    requires !after(s.bucket, t.bucket)
    ensures SortByBucket([s, t], after) == [s, t]
  {
    assert [s][..0] == [] && [] + [s] == [s];
    assert SortByBucket([s], after) == InsertSlot([], s, after);
    var slots := [s, t];
    assert slots[..|slots| - 1] == [s];
    assert SortByBucket(slots, after) == InsertSlot([s], t, after);
    assert [s] + [t] == slots;
  }

  lemma TwoServersSeries(g: Grid, after: (string, string) -> bool, a: int, t: int)
    requires ValidGrid(g) && !after(g.bucketName(0), g.bucketName(0))
    ensures var records := [Record(Some(g.start), "a", a), Record(Some(g.start), "total", t)];
            SortByBucket(Grouped(g, records), after) == TwoServers(g, a, t)
  {
    var series := TwoServers(g, a, t);
    assert "a" != "total" by {
      assert |"a"| != |"total"|;
    }
    var r1, r2 := Record(Some(g.start), "a", a), Record(Some(g.start), "total", t);
    assert BucketOf(g, r1) == g.bucketName(0) && BucketOf(g, r2) == g.bucketName(0);
    GroupedTwo(g, r1, r2);
    UpsertOther(series[0], "total", t);
    SortedTwo(series[0], series[1], after);
  }

  lemma TwoServersNames(g: Grid, a: int, t: int)
    ensures var series := TwoServers(g, a, t);
            && Servers(series) == ["a", "total"]
            && ServerCost(series, "total") == t && ServerCost(series, "a") == a
            && ServersCost(series, ["a"]) == a
  {
    var series := TwoServers(g, a, t);
    var first := [series[0]];
    assert series[..1] == first && first[..0] == [];
    assert "a" != "total" by {
      assert |"a"| != |"total"|;
    }
    assert Servers(first) == [] + ["a"];
    assert "total" !in ["a"];
    assert Servers(series) == ["a"] + ["total"];
    assert ServerCost(first, "a") == a && ServerCost(first, "total") == 0;
    assert ["a"][..0] == [];
    assert ServersCost(series, ["a"]) == ServersCost(series, []) + ServerCost(series, "a");
  }

  /** Two such records are enough: the pivoted rows are off by the difference of the two costs. */
  lemma TotalServerFalsifiesPivot(g: Grid, after: (string, string) -> bool, a: int, t: int)
    requires ValidGrid(g) && !after(g.bucketName(0), g.bucketName(0))
    ensures var records := [Record(Some(g.start), "a", a), Record(Some(g.start), "total", t)];
            var series := SortByBucket(Grouped(g, records), after);
            PivotTotal(series, Buckets(series), Servers(series)) == RecordCost(g, records) + t - a
  {
    var records := [Record(Some(g.start), "a", a), Record(Some(g.start), "total", t)];
    var series := SortByBucket(Grouped(g, records), after);
    TwoServersSeries(g, after, a, t);
    TwoServersNames(g, a, t);
    NamesCover(series);
    SeriesFacts(g, records, after);
    assert ["a", "total"][..1] == ["a"];
    PivotOffByTotal(series, Buckets(series), Servers(series), 1);
  }
}
