/** The parameterised FizzBuzz sequence and the work split of its parallel
    variant, with the workers run one after another. */
module FizzBuzz {
  import Text

  /** Whether `d` divides `i`. Go's `%` truncates while Dafny's is Euclidean,
      but the two agree on whether the remainder is zero. */
  predicate Divides(d: int, i: int)
    requires d != 0
  {
    i % d == 0
  }

  /** The element for the number `i`. */
  function Cell(i: nat, int1: int, int2: int, str1: string, str2: string): string
    requires int1 != 0 && int2 != 0
  {
    if Divides(int1, i) && Divides(int2, i) then str1 + str2
    else if Divides(int1, i) then str1
    else if Divides(int2, i) then str2
    else Text.Itoa(i)
  }

  /** The expected answer: one element for each number from 1 to `limit`. */
  function Expected(int1: int, int2: int, limit: nat, str1: string, str2: string): (s: seq<string>)
    requires limit > 0 ==> int1 != 0 && int2 != 0
    ensures |s| == limit
    ensures forall j :: 0 <= j < limit ==> s[j] == Cell(j + 1, int1, int2, str1, str2)
  {
    seq(limit, j requires 0 <= j < limit => Cell(j + 1, int1, int2, str1, str2))
  }

  /** The sequential generator. A negative `limit` makes Go's slice
      allocation panic and a zero divisor makes `%` panic, so neither is
      allowed when a number is tested. */
  method FizzBuzz(int1: int, int2: int, limit: int, str1: string, str2: string) returns (r: seq<string>)
    requires limit >= 0
    requires limit > 0 ==> int1 != 0 && int2 != 0
    ensures |r| == limit
    ensures r == Expected(int1, int2, limit, str1, str2)
  {
    r := [];
    var i := 1;
    while i <= limit
      invariant 1 <= i <= limit + 1
      invariant |r| == i - 1
      invariant forall j :: 0 <= j < i - 1 ==> r[j] == Cell(j + 1, int1, int2, str1, str2)
    {
      var byInt1 := i % int1 == 0;
      var byInt2 := i % int2 == 0;
      if byInt1 && byInt2 {
        r := r + [str1 + str2];
      } else if byInt1 {
        r := r + [str1];
      } else if byInt2 {
        r := r + [str2];
      } else {
        r := r + [Text.Itoa(i)];
      }
      i := i + 1;
    }
  }

  // ----- Work split of the parallel variant -------------------------------------

  /** The number of workers: one per CPU, but never more than the numbers to
      produce. */
  function Workers(cpus: int, limit: int): (n: int)
    requires cpus >= 1 && limit >= 1
    ensures 1 <= n <= limit && n <= cpus
    ensures n == cpus || n == limit
  {
    if cpus > limit then limit else cpus
  }

  /** The first number worker `w` produces, one full chunk after the first
      number of the previous worker. */
  function ChunkStart(w: nat, chunk: int): int {
    if w == 0 then 1 else ChunkStart(w - 1, chunk) + chunk
  }

  /** The last number worker `w` of `n` produces; the last worker also takes
      the remainder. */
  function ChunkEnd(w: nat, n: int, chunk: int, rem: int): int {
    ChunkStart(w, chunk) + chunk - 1 + (if w == n - 1 then rem else 0)
  }

  /** The start of a chunk is the product the Go loop computes. */
  lemma {:induction false} StartIsProduct(w: nat, chunk: int)
    ensures ChunkStart(w, chunk) == w * chunk + 1
  {
    if w > 0 {
      StartIsProduct(w - 1, chunk);
      assert (w - 1) * chunk + chunk == w * chunk;
    }
  }

  lemma {:induction false} StartsIncrease(v: nat, u: nat, chunk: int)
    requires v < u && chunk >= 1
    ensures ChunkStart(v, chunk) + chunk <= ChunkStart(u, chunk)
  {
    if v < u - 1 {
      StartsIncrease(v, u - 1, chunk);
    }
  }

  /** The split is sound: chunks are not empty, the remainder is smaller
      than the number of workers, and the last range ends at `limit`. Since
      the first range starts at 1 and each next one starts right after the
      previous one ends, the ranges tile 1 to `limit`. */
  lemma ChunksTile(limit: int, n: int)
    requires 1 <= n <= limit
    ensures var chunk, rem := limit / n, limit % n;
      && chunk >= 1 && 0 <= rem < n
      && ChunkStart(0, chunk) == 1
      && ChunkEnd(n - 1, n, chunk, rem) == limit
  {
    var chunk, rem := limit / n, limit % n;
    assert limit == n * chunk + rem;
    StartIsProduct(n - 1, chunk);
    assert (n - 1) * chunk + chunk == n * chunk;
  }

  /** The first worker from `w` on whose range reaches `i`, or the last one. */
  function OwnerFrom(i: int, w: nat, n: int, chunk: int, rem: int): (o: nat)
    requires w < n
    ensures w <= o < n
    decreases n - w
  {
    if w == n - 1 || i <= ChunkEnd(w, n, chunk, rem) then w else OwnerFrom(i, w + 1, n, chunk, rem)
  }

  lemma {:induction false} OwnerFromCovers(limit: int, n: int, i: int, w: nat)
    requires 1 <= n <= limit && w < n
    requires ChunkStart(w, limit / n) <= i <= limit
    ensures var o := OwnerFrom(i, w, n, limit / n, limit % n);
      ChunkStart(o, limit / n) <= i <= ChunkEnd(o, n, limit / n, limit % n)
    decreases n - w
  {
    ChunksTile(limit, n);
    if !(w == n - 1 || i <= ChunkEnd(w, n, limit / n, limit % n)) {
      OwnerFromCovers(limit, n, i, w + 1);
    }
  }

  /** A worker's range ends before the range of any later worker starts. */
  lemma ChunksOrdered(limit: int, n: int, v: nat, u: nat)
    requires 1 <= n <= limit && v < u < n
    ensures ChunkEnd(v, n, limit / n, limit % n) < ChunkStart(u, limit / n)
  {
    ChunksTile(limit, n);
    StartsIncrease(v, u, limit / n);
  }

  /** Every number from 1 to `limit` is produced by exactly one worker. */
  lemma ChunksPartition(limit: int, n: int, i: int)
    requires 1 <= n <= limit && 1 <= i <= limit
    ensures var chunk, rem := limit / n, limit % n;
      && (exists w: nat :: w < n && ChunkStart(w, chunk) <= i <= ChunkEnd(w, n, chunk, rem))
      && (forall v: nat, w: nat :: (v < n && w < n
            && ChunkStart(v, chunk) <= i <= ChunkEnd(v, n, chunk, rem)
            && ChunkStart(w, chunk) <= i <= ChunkEnd(w, n, chunk, rem)) ==> v == w)
  {
    var chunk, rem := limit / n, limit % n;
    ChunksTile(limit, n);
    OwnerFromCovers(limit, n, i, 0);
    forall v: nat, w: nat | v < n && w < n
      && ChunkStart(v, chunk) <= i <= ChunkEnd(v, n, chunk, rem)
      && ChunkStart(w, chunk) <= i <= ChunkEnd(w, n, chunk, rem)
      ensures v == w
    {
      if v < w {
        ChunksOrdered(limit, n, v, w);
      } else if w < v {
        ChunksOrdered(limit, n, w, v);
      }
    }
  }

  /** One worker: writes the element of each number from `start` to `end` to
      its position, leaving every other position as it was. */
  method Worker(r: seq<string>, start: int, end: int, int1: int, int2: int, str1: string, str2: string)
    returns (r': seq<string>)
    requires 1 <= start && end <= |r|
    requires int1 != 0 && int2 != 0
    ensures |r'| == |r|
    ensures forall j :: start - 1 <= j < end ==> r'[j] == Cell(j + 1, int1, int2, str1, str2)
    ensures forall j :: 0 <= j < |r| && !(start - 1 <= j < end) ==> r'[j] == r[j]
  {
    r' := r;
    var i := start;
    while i <= end
      invariant start <= i <= if start <= end then end + 1 else start
      invariant |r'| == |r|
      invariant forall j :: start - 1 <= j < i - 1 ==> r'[j] == Cell(j + 1, int1, int2, str1, str2)
      invariant forall j :: 0 <= j < |r| && !(start - 1 <= j < i - 1) ==> r'[j] == r[j]
    {
      var byInt1 := i % int1 == 0;
      var byInt2 := i % int2 == 0;
      var value;
      if byInt1 && byInt2 {
        value := str1 + str2;
      } else if byInt1 {
        value := str1;
      } else if byInt2 {
        value := str2;
      } else {
        value := Text.Itoa(i);
      }
      r' := r'[i - 1 := value];
      i := i + 1;
    }
  }

  /** A worker's range lies within 1 to `limit`. */
  lemma ChunkWithinLimit(limit: int, n: int, w: nat)
    requires 1 <= n <= limit && w < n
    ensures 1 <= ChunkStart(w, limit / n) && ChunkEnd(w, n, limit / n, limit % n) <= limit
  {
    ChunksTile(limit, n);
    if w > 0 {
      StartsIncrease(0, w, limit / n);
    }
    if w < n - 1 {
      ChunksOrdered(limit, n, w, n - 1);
    }
  }

  /** The parallel generator with its workers run in order. Each worker writes
      the numbers of its range to their positions; the result is the same as
      the sequential one. `cpus` is the number of CPUs the runtime reports. */
  method ConcurrentFizzBuzz(int1: int, int2: int, limit: int, str1: string, str2: string, cpus: int)
    returns (r: seq<string>)
    requires cpus >= 1
    requires limit > 0 ==> int1 != 0 && int2 != 0
    ensures limit <= 0 ==> r == []
    ensures limit > 0 ==> r == Expected(int1, int2, limit, str1, str2)
  {
    if limit <= 0 {
      return [];
    }
    var n := Workers(cpus, limit);
    var chunk := limit / n;
    var rem := limit % n;
    ChunksTile(limit, n);
    r := seq(limit, _ => "");
    var filled := 0;
    var w: nat := 0;
    while w < n
      invariant 0 <= w <= n
      invariant |r| == limit
      invariant 0 <= filled <= limit
      invariant w < n ==> filled == ChunkStart(w, chunk) - 1
      invariant w == n ==> filled == limit
      invariant forall j :: 0 <= j < filled ==> r[j] == Cell(j + 1, int1, int2, str1, str2)
    {
      var start := w * chunk + 1;
      var end := start + chunk - 1;
      if w == n - 1 {
        end := end + rem;
      }
      StartIsProduct(w, chunk);
      assert end == ChunkEnd(w, n, chunk, rem);
      ChunkWithinLimit(limit, n, w);
      ghost var before := r;
      r := Worker(r, start, end, int1, int2, str1, str2);
      forall j | 0 <= j < end
        ensures r[j] == Cell(j + 1, int1, int2, str1, str2)
      {
        if j < start - 1 {
          assert r[j] == before[j];
        }
      }
      filled := end;
      w := w + 1;
    }
  }

  // ----- Properties -----------------------------------------------------------

  /** A number divisible by neither divisor appears as its own decimal
      rendering, which reads back as the number. */
  lemma NumbersReadBack(int1: int, int2: int, limit: nat, str1: string, str2: string, i: nat)
    requires int1 != 0 && int2 != 0
    requires 1 <= i <= limit
    requires !Divides(int1, i) && !Divides(int2, i)
    ensures Text.IsDigits(Expected(int1, int2, limit, str1, str2)[i - 1])
    ensures Text.ParseDecimal(Expected(int1, int2, limit, str1, str2)[i - 1]) == i
  {
    Text.DecimalRoundTrip(i);
  }

  lemma SmallNumerals()
    ensures Text.Itoa(1) == "1" && Text.Itoa(2) == "2" && Text.Itoa(4) == "4"
    ensures Text.Itoa(7) == "7" && Text.Itoa(8) == "8"
    ensures Text.Itoa(11) == "11" && Text.Itoa(13) == "13" && Text.Itoa(14) == "14"
  {
    assert Text.Itoa(1) == "1";
    assert Text.Itoa(11) == Text.Itoa(1) + "1";
    assert Text.Itoa(13) == Text.Itoa(1) + "3";
    assert Text.Itoa(14) == Text.Itoa(1) + "4";
  }

  /** The classic game: 3 and 5 with "fizz" and "buzz" up to 15. */
  lemma Classic()
    ensures Expected(3, 5, 15, "fizz", "buzz")
      == ["1", "2", "fizz", "4", "buzz", "fizz", "7", "8", "fizz", "buzz", "11", "fizz", "13", "14", "fizzbuzz"]
  {
    SmallNumerals();
    var s := Expected(3, 5, 15, "fizz", "buzz");
    assert s[0] == "1" && s[1] == "2" && s[2] == "fizz" && s[3] == "4" && s[4] == "buzz";
    assert s[5] == "fizz" && s[6] == "7" && s[7] == "8" && s[8] == "fizz" && s[9] == "buzz";
    assert s[10] == "11" && s[11] == "fizz" && s[12] == "13" && s[13] == "14" && s[14] == "fizzbuzz";
  }
}
