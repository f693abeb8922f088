/** Sizes of logical volumes: the whole number of Gi or Mi that getPvInfo asks LVM for, and the
    rounding that LVM applies (pkg/csi/lvm/nodeserver.go). */
module Sizes {
  const MI: nat := 1024 * 1024
  const GI: nat := 1024 * 1024 * 1024

  datatype Request = Request(size: nat, unit: nat)

  /** getPvInfo: whole Gi, or whole Mi below one Gi. */
  function Choose(capacity: nat): Request {
    var gb := capacity / GI;
    if gb == 0 then Request(capacity / MI, MI) else Request(gb, GI)
  }

  function Bytes(r: Request): nat {
    r.size * r.unit
  }

  /** What is asked for never exceeds the capacity, falls short by less than one unit, and for
      every capacity of at least one Mi is more than half of it. */
  lemma ChooseBounds(capacity: nat)
    ensures var r := Choose(capacity); Bytes(r) <= capacity < Bytes(r) + r.unit
    ensures capacity >= MI <==> Choose(capacity).size >= 1
    ensures capacity >= MI ==> 2 * Bytes(Choose(capacity)) > capacity
  {
    var r := Choose(capacity);
    assert capacity == r.unit * r.size + capacity % r.unit;
  }

  /** Nothing is cut off exactly for whole Gi, and for whole Mi below one Gi. */
  lemma ChooseExact(capacity: nat)
    ensures Bytes(Choose(capacity)) == capacity <==>
      if capacity < GI then capacity % MI == 0 else capacity % GI == 0
  {
    var r := Choose(capacity);
    assert capacity == r.unit * r.size + capacity % r.unit;
  }

  /** LVM allocates whole chunks (extents, or one extent per stripe). */
  function RoundUp(bytes: nat, chunk: nat): (r: nat)
    ensures r >= bytes
    ensures chunk > 0 ==> r < bytes + chunk
  {
    if chunk == 0 then bytes else
      var n := (bytes + chunk - 1) / chunk;
      assert bytes + chunk - 1 == chunk * n + (bytes + chunk - 1) % chunk;
      n * chunk
  }

  /** What LVM allocates is the least whole number of chunks that holds the bytes. */
  lemma RoundUpIsWhole(bytes: nat, chunk: nat)
    requires chunk > 0
    ensures RoundUp(bytes, chunk) % chunk == 0 && bytes <= RoundUp(bytes, chunk) < bytes + chunk
  {
    var n := (bytes + chunk - 1) / chunk;
    QuotientIs(n * chunk, chunk, n, 0);
    assert n * chunk == chunk * ((n * chunk) / chunk) + (n * chunk) % chunk;
  }

  lemma RoundUpMultiple(j: nat, chunk: nat)
    requires chunk > 0
    ensures RoundUp(j * chunk, chunk) == j * chunk
  {
    var n := (j * chunk + chunk - 1) / chunk;
    assert j * chunk + chunk - 1 == (j + 1) * chunk - 1;
    QuotientIs(j * chunk + chunk - 1, chunk, j, chunk - 1);
  }

  lemma QuotientIs(x: nat, d: nat, q: nat, r: nat)
    requires d > 0 && x == q * d + r && r < d
    ensures x / d == q
  {
    var e := x / d - q;
    assert x == (x / d) * d + x % d;
    assert e * d == r - x % d;
    SmallMultiple(e, d);
  }

  lemma SmallMultiple(e: int, d: int)
    requires d > 0 && -d < e * d < d
    ensures e == 0
  {
    assert e >= 1 ==> e * d >= d;
    assert e <= -1 ==> e * d <= -d;
  }

  /** When chunks divide a Gi, what LVM allocates for a volume of at least one Gi reaches the
      capacity exactly for whole Gi: the part that was cut off is never made up for. */
  lemma ReachesIffWhole(capacity: nat, chunk: nat)
    requires capacity >= GI && chunk > 0 && GI % chunk == 0
    ensures RoundUp(Bytes(Choose(capacity)), chunk) >= capacity <==> capacity % GI == 0
  {
    var k, m := capacity / GI, GI / chunk;
    assert GI == m * chunk;
    assert k * GI == (k * m) * chunk;
    RoundUpMultiple(k * m, chunk);
    ChooseBounds(capacity);
    ChooseExact(capacity);
  }
}
