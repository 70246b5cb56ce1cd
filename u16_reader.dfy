/** The incremental reader of one big-endian `u16`: it keeps at most two bytes
    out of any number of partial deliveries. */
module U16Reading {
  import opened Wire

  /** The bytes held after offering `data` to a reader holding `held`: the
      reader keeps only as many bytes from the head of `data` as it still
      needs. */
  function Absorb(held: seq<byte>, data: seq<byte>): (r: seq<byte>)
    requires |held| <= 2
    ensures |r| == |held| + Min(|data|, 2 - |held|) && |r| <= 2
    ensures r == held + data[..|r| - |held|]
  {
    if |data| > 2 - |held| then held + data[..2 - |held|] else held + data
  }

  /** The value held, once exactly two bytes are held. */
  function Assemble(held: seq<byte>): (r: Option<u16>)
    ensures r.Some? <==> |held| == 2
    ensures r.Some? ==> ToBE(r.value) == held
  {
    if |held| == 2 then
      ToFromBE(held);
      Some(FromBE(held))
    else None
  }

  /** Offering two pieces in turn keeps the same bytes as offering them at once. */
  lemma AbsorbTwice(held: seq<byte>, a: seq<byte>, b: seq<byte>)
    requires |held| <= 2
    ensures Absorb(Absorb(held, a), b) == Absorb(held, a + b)
  {
    var n := 2 - |held|;
    if |a| >= n {
      assert (a + b)[..n] == a[..n];
    } else if |a| + |b| > n {
      assert (a + b)[..n] == a + b[..n - |a|];
    }
  }

  function Concat(chunks: seq<seq<byte>>): seq<byte>
  {
    if chunks == [] then [] else chunks[0] + Concat(chunks[1..])
  }

  /** Offering `chunks` one after another, as successive `write` calls do. */
  function AbsorbAll(held: seq<byte>, chunks: seq<seq<byte>>): (r: seq<byte>)
    requires |held| <= 2
    ensures |r| <= 2
    decreases |chunks|
  {
    if chunks == [] then held else AbsorbAll(Absorb(held, chunks[0]), chunks[1..])
  }

  /** Chunking invariance: however the bytes are split into writes, the reader
      ends up holding what one write of all of them would leave. */
  lemma {:induction false} AbsorbAllIsAbsorb(held: seq<byte>, chunks: seq<seq<byte>>)
    requires |held| <= 2
    ensures AbsorbAll(held, chunks) == Absorb(held, Concat(chunks))
    decreases |chunks|
  {
    if chunks != [] {
      AbsorbAllIsAbsorb(Absorb(held, chunks[0]), chunks[1..]);
      AbsorbTwice(held, chunks[0], Concat(chunks[1..]));
    }
  }

  /** For a sequence of at least two bytes, any split into writes makes a fresh
      reader finish with the big-endian value of its first two bytes. */
  lemma ChunkedFinish(chunks: seq<seq<byte>>)
    requires |Concat(chunks)| >= 2
    ensures Assemble(AbsorbAll([], chunks)) == Some(FromBE(Concat(chunks)[..2]))
  {
    AbsorbAllIsAbsorb([], chunks);
    ToFromBE(Concat(chunks)[..2]);
  }

  class U16Reader {
    var buffer: seq<byte>

    ghost predicate Valid()
      reads this
    {
      |buffer| <= 2
    }

    /** `U16Reader::new`. */
    constructor ()
      ensures Valid() && buffer == [] && BytesNeeded() == 2
    {
      buffer := [];
    }

    /** `bytes_needed`: what is missing to a complete value; zero exactly
        when `Finish` yields. */
    function BytesNeeded(): (n: nat)
      reads this
      requires Valid()
      ensures n + |buffer| == 2
      ensures n == 0 <==> Finish().Some?
    {
      2 - |buffer|
    }

    /** `write`: keep at most `BytesNeeded()` bytes from the head of `data`. */
    method Write(data: seq<byte>)
      requires Valid()
      modifies this
      ensures Valid()
      ensures buffer == Absorb(old(buffer), data)
      ensures |buffer| == |old(buffer)| + Min(|data|, old(BytesNeeded()))
      ensures |old(buffer)| == 2 ==> buffer == old(buffer)
    {
      var d := data;
      if |d| > BytesNeeded() {
        d := d[..BytesNeeded()];
      }
      buffer := buffer + d;
    }

    /** `finish`: the big-endian value once both bytes are held. */
    function Finish(): (r: Option<u16>)
      reads this
      ensures r.Some? <==> |buffer| == 2
      ensures r.Some? ==> r.value == FromBE(buffer) && ToBE(r.value) == buffer
    {
      Assemble(buffer)
    }
  }
}
