/** The segment search of samples/dedup/rabin.c on the bytes of a file. */
module FileSegments {
  import opened Bytes
  import opened Segments
  import opened Chunking
  import opened Gf2
  import opened Rabin

  function Bits(p: seq<byte>): seq<bv8> {
    seq(|p|, i requires 0 <= i < |p| => p[i] as bv8)
  }

  function FromBits(q: seq<bv8>): seq<byte> {
    seq(|q|, i requires 0 <= i < |q| => q[i] as int)
  }

  lemma BitsBack(q: seq<bv8>)
    ensures Bits(FromBits(q)) == q
  {
  }

  lemma BitsPrefix(p: seq<byte>, k: nat)
    requires k <= |p|
    ensures Bits(p[..k]) == Bits(p)[..k]
  {
  }

  // Where a segment of the file may end.
  predicate FileMatches(winlen: int, p: seq<byte>) {
    Matches(winlen, Bits(p))
  }

  function FileMatcher(winlen: int): seq<byte> -> bool {
    p => FileMatches(winlen, p)
  }

  lemma FileNotEmpty(winlen: int)
    ensures NotEmpty(FileMatcher(winlen))
  {
    var none: seq<byte> := [];
    assert !FileMatches(winlen, none);
  }

  lemma SegBits(winlen: int, p: seq<byte>)
    ensures Seg(FileMatcher(winlen), p) == Seg(Matcher(winlen), Bits(p))
  {
    forall k | 0 <= k <= |p| ensures FileMatcher(winlen)(p[..k]) == Matcher(winlen)(Bits(p)[..k]) {
      BitsPrefix(p, k);
    }
    FirstSame(FileMatcher(winlen), p, Matcher(winlen), Bits(p), 0);
  }

  // Both tables hold what rabinseg relies on.
  ghost predicate Ready(winlen: int, rabintab: array<bv32>, rabinwintab: array<bv32>)
    reads rabintab, rabinwintab
  {
    IsTable(rabintab[..], WORD) && IsTable(rabinwintab[..], Span(winlen))
  }

  // rabinseg as the stages call it, with the size of the data as an int.
  method Search(data: seq<byte>, ghost winlen: int, rabintab: array<bv32>, rabinwintab: array<bv32>) returns (offset: int)
    requires Ready(winlen, rabintab, rabinwintab)
    ensures offset == SegInt(FileMatcher(winlen), data)
  {
    var n := AsInt(|data|);
    offset := Rabinseg(Bits(data), n, winlen, rabintab, rabinwintab);
    if n >= 0 {
      BitsPrefix(data, n);
      SegBits(winlen, data[..n]);
    }
  }

  // The test of a stage whether its buffer can be split.
  method NextEnd(data: seq<byte>, jump: nat, ghost winlen: int, rabintab: array<bv32>, rabinwintab: array<bv32>)
    returns (d: Decision)
    requires Ready(winlen, rabintab, rabinwintab)
    ensures d == Decide(FileMatcher(winlen), jump, data)
  {
    d := NoEnd;
    if jump < |data| {
      var offset := Search(data[jump..], winlen, rabintab, rabinwintab);
      var o := AsInt(offset + jump);
      if offset == 0 || o == 0 {
        d := Fails;
      } else if 0 < o < |data| {
        d := End(o);
      }
    }
  }

  // A file of n bytes in which no segment ends.
  function QuietFile(winlen: int, n: nat): seq<byte> {
    FromBits(Quiet(winlen, n))
  }

  /** Such a file is one piece. */
  lemma QuietFilePieces(winlen: int, n: nat)
    requires n > 0
    ensures |QuietFile(winlen, n)| == n && Cutter(Fine(FileMatcher(winlen)))
    ensures Pieces(Fine(FileMatcher(winlen)), QuietFile(winlen, n)) == [QuietFile(winlen, n)]
  {
    var m, q := FileMatcher(winlen), QuietFile(winlen, n);
    QuietFileSeg(winlen, n);
    FileNotEmpty(winlen);
    OnePiece(m, q);
  }

  lemma QuietFileSeg(winlen: int, n: nat)
    ensures |QuietFile(winlen, n)| == n && Seg(FileMatcher(winlen), QuietFile(winlen, n)) == n
  {
    QuietSeg(winlen, n);
    BitsBack(Quiet(winlen, n));
    SegBits(winlen, QuietFile(winlen, n));
  }
}
