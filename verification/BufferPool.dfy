/** libs/shared/websocket/buffer_pool.go: buckets of recycled buffers.

    A Go slice is an array here together with a length; the capacity is the
    length of the array.  `sort.Ints` and `sort.SearchInts` belong to the
    standard library and are given by what they compute. */
module BufferPools {
  import opened Types
  import opened Wire

  const MAX_INT64: int := 0x7fff_ffff_ffff_ffff

  predicate StrictlyIncreasing(s: seq<int>) {
    forall i, j :: 0 <= i < j < |s| ==> s[i] < s[j]
  }

  function Insert(x: int, s: seq<int>): (r: seq<int>)
    requires Ascending(s)
    ensures Ascending(r)
    ensures forall y :: y in r ==> y == x || y in s
  {
    if s == [] || x <= s[0] then [x] + s
    else
      var t := Insert(x, s[1..]);
      assert forall j :: 0 <= j < |t| ==> t[j] in t && (t[j] == x || t[j] in s[1..]);
      [s[0]] + t
  }

  lemma {:induction false} InsertKeeps(x: int, s: seq<int>)
    requires Ascending(s)
    ensures multiset(Insert(x, s)) == multiset(s) + multiset{x}
  {
    if s != [] {
      assert s == [s[0]] + s[1..];
      if x > s[0] { InsertKeeps(x, s[1..]); }
    }
  }

  /** `sort.Ints` */
  function Sorted(s: seq<int>): (r: seq<int>)
    ensures Ascending(r) && multiset(r) == multiset(s)
  {
    if s == [] then []
    else
      assert s == [s[0]] + s[1..];
      InsertKeeps(s[0], Sorted(s[1..]));
      Insert(s[0], Sorted(s[1..]))
  }

  lemma SortedElements(s: seq<int>, x: int)
    ensures x in Sorted(s) <==> x in s
  {
    assert x in s <==> x in multiset(s);
    assert x in Sorted(s) <==> x in multiset(Sorted(s));
  }

  /** `sort.SearchInts`: the first index whose element is at least `x`. */
  function SearchInts(s: seq<int>, x: int): (i: nat)
    ensures i <= |s|
    ensures forall k :: 0 <= k < i ==> s[k] < x
    ensures i < |s| ==> s[i] >= x
  {
    if s == [] || s[0] >= x then 0 else 1 + SearchInts(s[1..], x)
  }

  /** `normalizeBucketSizes`: the distinct sizes in range, in increasing order.
      The result is built inside the array that is being read. */
  method NormalizeBucketSizes(sizes: seq<int>) returns (out: seq<int>)
    ensures StrictlyIncreasing(out)
    ensures forall x :: x in out <==> x in sizes && 0 < x <= MAX_INT64
  {
    var filtered: seq<int> := [];
    for i := 0 to |sizes|
      invariant forall x :: x in filtered <==> x in sizes[..i] && 0 < x <= MAX_INT64
    {
      if sizes[i] > 0 && sizes[i] <= MAX_INT64 {
        filtered := filtered + [sizes[i]];
      }
      assert sizes[..i + 1] == sizes[..i] + [sizes[i]];
    }
    assert sizes[..|sizes|] == sizes;
    if filtered == [] { return []; }
    var sorted := Sorted(filtered);
    var a := new int[|sorted|](i requires 0 <= i < |sorted| => sorted[i]);
    var n := Dedup(a, sorted);
    out := a[..n];
    forall x ensures x in out <==> x in sizes && 0 < x <= MAX_INT64 {
      SortedElements(filtered, x);
    }
  }

  /** The deduplication loop: `out` shares the backing array of `filtered`. */
  method Dedup(a: array<int>, sorted: seq<int>) returns (n: nat)
    requires a[..] == sorted && Ascending(sorted)
    modifies a
    ensures n <= a.Length && StrictlyIncreasing(a[..n])
    ensures forall x :: x in a[..n] <==> x in sorted
  {
    n := 0;
    var last := 0;
    var i := 0;
    while i < a.Length
      invariant 0 <= n <= i <= a.Length && (i == 0 <==> n == 0)
      invariant a[i..] == sorted[i..]
      invariant n > 0 ==> last == sorted[i - 1] == a[n - 1]
      invariant StrictlyIncreasing(a[..n])
      invariant forall x :: x in a[..n] <==> x in sorted[..i]
    {
      var size := a[i];
      assert size == a[i..][0] == sorted[i];
      assert sorted[..i + 1] == sorted[..i] + [size];
      ghost var kept := a[..n];
      if i == 0 || size != last {
        a[n] := size;
        n := n + 1;
        last := size;
        assert a[..n] == kept + [size];
      }
      assert a[i + 1..] == sorted[i + 1..];
      i := i + 1;
    }
    assert sorted[..i] == sorted;
  }

  /** `defaultBufferPoolBuckets` */
  const DEFAULT_BUCKETS: seq<int> := [0x10, 0x100, 0x1000, 0x1_0000, 0x1_0000_0000, MAX_INT64]

  lemma DefaultBuckets()
    ensures DEFAULT_BUCKETS == [16, 256, 4096, 65536, 4294967296, 9223372036854775807]
    ensures StrictlyIncreasing(DEFAULT_BUCKETS)
  {
  }

  /** `bufferPool`: for each bucket size, the buffers waiting to be reused. */
  class BufferPool {
    const sizes: seq<int>
    const memory: Memory
    var free: seq<set<array<byte>>>

    ghost predicate Valid()
      reads this
    {
      && sizes != [] && StrictlyIncreasing(sizes) && sizes[0] > 0
      && |free| == |sizes|
      && forall i, b :: 0 <= i < |free| && b in free[i] ==> b.Length == sizes[i]
    }

    /** Every buffer that is in the pool, that is, in nobody's hands. */
    ghost function Free(): set<array<byte>>
      reads this
    {
      set i, b | 0 <= i < |free| && b in free[i] :: b
    }

    function Largest(): int
      requires sizes != []
    {
      sizes[|sizes| - 1]
    }

    /** `newBufferPool`: the usable sizes among those given, or else the default
        ones. */
    constructor (bucketSizes: seq<int>, memory: Memory)
      ensures Valid() && Free() == {} && this.memory == memory
      ensures if exists x :: x in bucketSizes && 0 < x <= MAX_INT64
              then forall x :: x in sizes <==> x in bucketSizes && 0 < x <= MAX_INT64
              else sizes == DEFAULT_BUCKETS
    {
      var cleaned := NormalizeBucketSizes(bucketSizes);
      if |cleaned| == 0 { cleaned := DEFAULT_BUCKETS; }
      assert cleaned[0] in cleaned;
      this.memory := memory;
      sizes := cleaned;
      free := seq(|cleaned|, _ => {});
    }

    /** `bucketIndex`: the smallest bucket that holds `size`, or -1. */
    function BucketIndex(size: int): (i: int)
      requires StrictlyIncreasing(sizes)
      ensures -1 <= i < |sizes|
      ensures i == -1 <==> forall k :: 0 <= k < |sizes| ==> sizes[k] < size
      ensures i >= 0 ==> sizes[i] >= size && forall k :: 0 <= k < |sizes| && sizes[k] >= size ==> i <= k
    {
      var i := SearchInts(sizes, size);
      if i >= |sizes| then -1 else i
    }

    /** `NextBucketSize`: the smallest bucket above `size`, or 0. */
    function NextBucketSize(size: int): (next: int)
      requires sizes != [] && StrictlyIncreasing(sizes) && sizes[0] > 0
      ensures next == 0 <==> size <= 0 || size >= Largest()
      ensures next != 0 ==> next in sizes && next > size && forall k :: 0 <= k < |sizes| && sizes[k] > size ==> next <= sizes[k]
    {
      if size <= 0 then 0
      else
        var i := SearchInts(sizes, size);
        var j := if i < |sizes| && sizes[i] == size then i + 1 else i;
        if j >= |sizes| then 0 else sizes[j]
    }

    /** The capacity of a buffer for `size` bytes. */
    function Capacity(size: int): (n: int)
      requires sizes != [] && StrictlyIncreasing(sizes)
      ensures n >= size
    {
      if size <= Largest() then sizes[BucketIndex(size)] else size
    }

    /** No free buffer is larger than can be allocated. */
    ghost predicate Bounded()
      reads this
    {
      forall b :: b in Free() ==> memory.Holds(b.Length)
    }

    /** `Get` finds a buffer or can make one. */
    ghost predicate Affords(size: int)
      requires sizes != [] && StrictlyIncreasing(sizes)
      reads this
    {
      size <= 0 || memory.Holds(Capacity(size)) || exists b :: b in Free() && b.Length == Capacity(size)
    }

    /** `Get`.  A pooled buffer is handed out at most once; the slice has length
        `size` and the capacity of the smallest bucket that suffices.  It panics
        when no such buffer is free and none can be made. */
    method Get(size: int) returns (buf: array?<byte>, panics: bool)
      requires Valid()
      modifies this
      ensures Valid()
      ensures panics <==> !old(Affords(size))
      ensures old(Bounded()) ==> Bounded() && (panics <==> size > 0 && !memory.Holds(Capacity(size)))
      ensures buf == null <==> size <= 0 || panics
      ensures buf != null ==> buf.Length == Capacity(size)
      ensures buf != null ==> fresh(buf) || buf in old(Free())
      ensures Free() == old(Free()) - (if buf == null then {} else {buf})
    {
      if size <= 0 { return null, false; }
      var i := BucketIndex(size);
      if i < 0 {
        if !memory.Holds(size) { return null, true; }
        buf := new byte[size](_ => 0);
        return buf, false;
      }
      FreeInBucket(i);
      if free[i] != {} {
        // The pool may hand out any of its buffers.
        var b :| b in free[i];
        buf := b;
        free := free[i := free[i] - {b}];
        Taken(old(free), free, i, b);
      } else {
        if !memory.Holds(sizes[i]) { return null, true; }
        buf := new byte[sizes[i]](_ => 0);
      }
      panics := false;
    }

    lemma FreeInBucket(i: nat)
      requires Valid() && i < |sizes|
      ensures free[i] != {} <==> exists b :: b in Free() && b.Length == sizes[i]
    {
      if free[i] != {} {
        var b :| b in free[i];
        assert b in Free();
      }
      if b :| b in Free() && b.Length == sizes[i] {
        var k :| 0 <= k < |free| && b in free[k];
        assert k == i;
      }
    }

    /** `Put`: kept only when the capacity is exactly that of a bucket. */
    method Put(buf: array?<byte>)
      requires Valid()
      modifies this
      ensures Valid()
      ensures old(Bounded()) && (buf != null ==> memory.Holds(buf.Length)) ==> Bounded()
      ensures Free() == old(Free()) + (if buf != null && buf.Length in sizes then {buf} else {})
    {
      if buf == null { return; }
      var i := BucketIndex(buf.Length);
      if i < 0 || sizes[i] != buf.Length { return; }
      free := free[i := free[i] + {buf}];
      Returned(old(free), free, i, buf);
    }

    lemma Taken(before: seq<set<array<byte>>>, after: seq<set<array<byte>>>, i: nat, b: array<byte>)
      requires |before| == |sizes| && StrictlyIncreasing(sizes)
      requires forall i, b :: 0 <= i < |before| && b in before[i] ==> b.Length == sizes[i]
      requires i < |before| && b in before[i] && after == before[i := before[i] - {b}]
      ensures (set k, x | 0 <= k < |after| && x in after[k] :: x)
           == (set k, x | 0 <= k < |before| && x in before[k] :: x) - {b}
    {
      var all := set k, x | 0 <= k < |before| && x in before[k] :: x;
      var left := set k, x | 0 <= k < |after| && x in after[k] :: x;
      forall x | x in all && x != b ensures x in left {
        var k :| 0 <= k < |before| && x in before[k];
        assert x in after[k];
      }
      forall x | x in left ensures x in all && x != b {
        var k :| 0 <= k < |after| && x in after[k];
        assert x in before[k];
        assert x.Length == sizes[k] && (k != i ==> sizes[k] != sizes[i]);
      }
    }

    lemma Returned(before: seq<set<array<byte>>>, after: seq<set<array<byte>>>, i: nat, b: array<byte>)
      requires i < |before| && after == before[i := before[i] + {b}]
      ensures (set k, x | 0 <= k < |after| && x in after[k] :: x)
           == (set k, x | 0 <= k < |before| && x in before[k] :: x) + {b}
    {
      var all := set k, x | 0 <= k < |before| && x in before[k] :: x;
      var more := set k, x | 0 <= k < |after| && x in after[k] :: x;
      assert b in after[i];
      forall x | x in all ensures x in more {
        var k :| 0 <= k < |before| && x in before[k];
        assert x in after[k];
      }
    }
  }
}
