/** How a file is divided into parts for an upload. */
module PartSizes {
  import opened Wrappers

  datatype PartLimit = PartLimit(minPartSize: nat, maxPartSize: nat, maxNumSize: nat)

  /** getPartNum: the quotient, rounded up. */
  function GetPartNum(fileSize: int, partSize: int): int
    requires fileSize > 0 && partSize > 0
  {
    fileSize / partSize + if fileSize % partSize != 0 then 1 else 0
  }

  /** The size of the parts of a file, or nothing when the size is out of the server's limits. */
  function ChoosePartSize(limit: PartLimit, size: int): Option<int> {
    if size <= 0 then None
    else if size > limit.maxPartSize * limit.maxNumSize then None
    else if size <= limit.minPartSize * limit.maxNumSize then Some(limit.minPartSize)
    else
      MaxNumPositive(limit, size);
      Some(size / limit.maxNumSize + if size % limit.maxNumSize != 0 then 1 else 0)
  }

  lemma MaxNumPositive(limit: PartLimit, size: int)
    requires 0 < size <= limit.maxPartSize * limit.maxNumSize
    ensures limit.maxNumSize > 0
  {
    assert limit.maxPartSize * 0 == 0;
  }

  lemma Scaled(a: int, b: int, c: int)
    ensures a <= b && c >= 0 ==> a * c <= b * c
    ensures (a + 1) * c == a * c + c
  {
  }

  /** A quotient rounded up is at most n exactly when n parts are enough. */
  lemma {:induction false} RoundedUpAtMost(size: int, part: int, n: int)
    requires size > 0 && part > 0
    ensures GetPartNum(size, part) <= n <==> size <= n * part
  {
    var q, r := size / part, size % part;
    assert size == q * part + r && 0 <= r < part;
    Scaled(n + 1, q, part);
    Scaled(n, q, part);
    Scaled(q, n, part);
    Scaled(q + 1, n, part);
  }

  lemma EnoughIffAtLeast(size: int, num: int, q: int)
    requires size > 0 && num > 0
    ensures size <= num * q <==> q >= GetPartNum(size, num)
  {
    RoundedUpAtMost(size, num, q);
    assert q * num == num * q;
  }

  /** The chosen size is the least one, from the minimum on, with which the number of parts stays
      within the limit. A size is chosen for exactly the files that can be uploaded at all. */
  lemma {:induction false} PartSizeOptimal(limit: PartLimit, size: int)
    ensures ChoosePartSize(limit, size).Some? <==> 0 < size <= limit.maxPartSize * limit.maxNumSize
    ensures ChoosePartSize(limit, size).Some? ==>
              var p := ChoosePartSize(limit, size).value;
              && p > 0 && p >= limit.minPartSize
              && GetPartNum(size, p) <= limit.maxNumSize
              && (forall q | q > 0 && limit.minPartSize <= q < p :: GetPartNum(size, q) > limit.maxNumSize)
              && (p <= limit.maxPartSize
                  <==> limit.minPartSize <= limit.maxPartSize || size > limit.minPartSize * limit.maxNumSize)
  {
    if 0 < size <= limit.maxPartSize * limit.maxNumSize {
      MaxNumPositive(limit, size);
      var num := limit.maxNumSize;
      var p := ChoosePartSize(limit, size).value;
      EnoughIffAtLeast(size, num, limit.minPartSize);
      EnoughIffAtLeast(size, num, limit.maxPartSize);
      EnoughIffAtLeast(size, num, p);
      assert limit.minPartSize * num == num * limit.minPartSize;
      assert limit.maxPartSize * num == num * limit.maxPartSize;
      assert GetPartNum(size, num) > 0;
      RoundedUpAtMost(size, p, num);
      forall q | q > 0 && limit.minPartSize <= q < p
        ensures GetPartNum(size, q) > num
      {
        EnoughIffAtLeast(size, num, q);
        RoundedUpAtMost(size, q, num);
      }
    }
  }

  // ---------- The sizes of the parts ----------

  function Sum(s: seq<int>): int {
    if s == [] then 0 else Sum(s[..|s| - 1]) + s[|s| - 1]
  }

  /** All parts have the chosen size except the last, which takes the rest. */
  function SizesOf(fileSize: int, partSize: int): seq<int>
    requires fileSize > 0 && partSize > 0
  {
    var n := GetPartNum(fileSize, partSize);
    RoundedUpAtMost(fileSize, partSize, 0);
    seq(n, i => if i < n - 1 then partSize else fileSize - partSize * (n - 1))
  }

  lemma {:induction false} SumOfEqual(s: seq<int>, v: int)
    requires forall i | 0 <= i < |s| :: s[i] == v
    ensures Sum(s) == v * |s|
  {
    if s != [] {
      SumOfEqual(s[..|s| - 1], v);
      assert v * (|s| - 1) + v == v * |s|;
    }
  }

  /** The parts are a division of the file: positive sizes, none above the part size, all but the last
      equal to it, adding up to the file, and as many as getPartNum says. */
  lemma PartsDivideFile(fileSize: int, partSize: int)
    requires fileSize > 0 && partSize > 0
    ensures var sizes := SizesOf(fileSize, partSize);
            && |sizes| == GetPartNum(fileSize, partSize) > 0
            && (forall i | 0 <= i < |sizes| :: 0 < sizes[i] <= partSize)
            && (forall i | 0 <= i < |sizes| - 1 :: sizes[i] == partSize)
            && Sum(sizes) == fileSize
  {
    var sizes := SizesOf(fileSize, partSize);
    var n := GetPartNum(fileSize, partSize);
    RoundedUpAtMost(fileSize, partSize, 0);
    RoundedUpAtMost(fileSize, partSize, n);
    RoundedUpAtMost(fileSize, partSize, n - 1);
    assert (n - 1) * partSize == n * partSize - partSize;
    assert partSize * (n - 1) == (n - 1) * partSize;
    SumOfEqual(sizes[..n - 1], partSize);
  }

  /** The part of getPartInfo that fills the table of sizes. */
  method FillPartSizes(fileSize: int, partSize: int) returns (partSizes: array<int>)
    requires fileSize > 0 && partSize > 0
    ensures fresh(partSizes) && partSizes[..] == SizesOf(fileSize, partSize)
  {
    PartsDivideFile(fileSize, partSize);
    var partNum := fileSize / partSize;
    if fileSize % partSize != 0 {
      partNum := partNum + 1;
    }
    partSizes := new int[partNum];
    for i := 0 to partNum
      invariant forall k | 0 <= k < i :: partSizes[k] == partSize
    {
      partSizes[i] := partSize;
    }
    partSizes[partNum - 1] := fileSize - partSize * (partNum - 1);
  }

  // ---------- Sizes of some of the parts ----------

  /** The sizes of the parts in a set, added up. */
  function SumOver(sizes: seq<int>, parts: set<nat>): int {
    if sizes == [] then 0
    else SumOver(sizes[..|sizes| - 1], parts) + if |sizes| - 1 in parts then sizes[|sizes| - 1] else 0
  }

  lemma {:induction false} SumOverOneMore(sizes: seq<int>, parts: set<nat>, i: nat)
    requires i < |sizes|
    ensures SumOver(sizes, parts + {i}) == SumOver(sizes, parts) + if i in parts then 0 else sizes[i]
  {
    if i == |sizes| - 1 {
      SumOverSame(sizes[..i], parts, parts + {i});
    } else {
      SumOverOneMore(sizes[..|sizes| - 1], parts, i);
    }
  }

  lemma {:induction false} SumOverSame(sizes: seq<int>, parts: set<nat>, parts': set<nat>)
    requires forall i: nat | i < |sizes| :: i in parts <==> i in parts'
    ensures SumOver(sizes, parts) == SumOver(sizes, parts')
  {
    if sizes != [] {
      SumOverSame(sizes[..|sizes| - 1], parts, parts');
    }
  }

  lemma {:induction false} SumOverBounds(sizes: seq<int>, parts: set<nat>)
    requires forall i | 0 <= i < |sizes| :: sizes[i] > 0
    ensures 0 <= SumOver(sizes, parts) <= Sum(sizes)
    ensures (forall i: nat | i < |sizes| :: i in parts) ==> SumOver(sizes, parts) == Sum(sizes)
  {
    if sizes != [] {
      SumOverBounds(sizes[..|sizes| - 1], parts);
    }
  }
}
