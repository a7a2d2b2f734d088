/** What the decoder accepts and writes, for any input whatever: the reading of a file as records,
    stated without the decoder's own steps. */
module DedupDecoding {
  import opened Wrappers
  import opened Bytes
  import opened DedupRecords
  import opened DedupCodec
  import opened Sequences

  /* ---------- files that decode ---------- */

  // A record as it may stand in a file.
  predicate WellFormed(r: Record) {
    match r
    case Fingerprint(d) => |d| == 20
    case Data(c) => |c| < TWO_64 && AsInt(|c|) > 0
  }

  // u is what a compressed chunk c holds, and the decoder's buffer and its int sizes have room.
  predicate Holding(ops: Ops, c: Block, u: Block) {
    ops.decompress(c) == Some(u) && 0 < |u| < 0x8000_0000 && (ops.bounded ==> |u| <= 10_000_000)
  }

  // The last data record with digest d is the j-th.
  ghost predicate Latest(ops: Ops, rs: seq<Record>, us: seq<Block>, d: Block, j: int)
    requires |rs| == |us|
  {
    && 0 <= j < |rs| && rs[j].Data? && ops.digest(us[j]) == d
    && forall k :: j < k < |rs| && rs[k].Data? ==> ops.digest(us[k]) != d
  }

  // Record r stands for u after the records rs, which stand for us.
  ghost predicate StandsFor(ops: Ops, rs: seq<Record>, us: seq<Block>, r: Record, u: Block)
    requires |rs| == |us|
  {
    match r
    case Data(c) => Holding(ops, c, u)
    case Fingerprint(d) => exists j :: Latest(ops, rs, us, d, j) && us[j] == u
  }

  ghost predicate StandsAt(ops: Ops, rs: seq<Record>, us: seq<Block>, i: int)
    requires |rs| == |us| && 0 <= i < |rs|
  {
    WellFormed(rs[i]) && StandsFor(ops, rs[..i], us[..i], rs[i], us[i])
  }

  ghost predicate Stand(ops: Ops, rs: seq<Record>, us: seq<Block>) {
    |rs| == |us| && forall i :: 0 <= i < |rs| ==> StandsAt(ops, rs, us, i)
  }

  /* ---------- files that do not ---------- */

  // The two halves of a record's head.
  function Kind(rest: seq<byte>): int
    requires |rest| >= 9
  {
    rest[0]
  }

  function Size(rest: seq<byte>): nat
    requires |rest| >= 9
  {
    FromLe(rest[1..9])
  }

  // A whole data record follows, of a size that is positive as an int.
  predicate DataFollows(rest: seq<byte>) {
    |rest| >= 9 && Kind(rest) == 1 && |rest| >= 9 + Size(rest) && AsInt(Size(rest)) > 0
  }

  // Why the record at the beginning of rest stops the decoder, after the records rs.
  ghost predicate Rejected(ops: Ops, rs: seq<Record>, us: seq<Block>, rest: seq<byte>, e: Error)
    requires |rs| == |us|
  {
    match e
    case IncompleteChunk =>
      || 0 < |rest| < 9
      || (|rest| >= 9 && Kind(rest) == 0 && Size(rest) == 20 && |rest| < 29)
      || (|rest| >= 9 && Kind(rest) == 1 && Size(rest) > 0 && (|rest| < 9 + Size(rest) || AsInt(Size(rest)) == 0))
    case IncorrectSha1Size => |rest| >= 9 && Kind(rest) == 0 && Size(rest) != 20
    case IllegalSize => |rest| >= 9 && Kind(rest) == 1 && Size(rest) == 0
    case UnknownType => |rest| >= 9 && Kind(rest) > 1
    case ReadFails => |rest| >= 9 && Kind(rest) == 1 && |rest| >= 9 + Size(rest) && AsInt(Size(rest)) < 0
    case MissingUnique =>
      && |rest| >= 29 && Kind(rest) == 0 && Size(rest) == 20
      && forall j :: 0 <= j < |rs| && rs[j].Data? ==> ops.digest(us[j]) != rest[9..29]
    case UncompressFails =>
      && DataFollows(rest)
      && (match ops.decompress(rest[9..9 + Size(rest)])
          case None => true
          case Some(u) => AsInt(|u|) <= 0 || (ops.bounded && |u| > 10_000_000))
    case WriteFails =>
      && DataFollows(rest)
      && (match ops.decompress(rest[9..9 + Size(rest)])
          case None => false
          case Some(u) => AsInt(|u|) > 0 && |u| >= 0x8000_0000 && (ops.bounded ==> |u| <= 10_000_000))
  }

  // The file is records rs, which stand for us, and then rest: nothing, or what stops the decoder.
  ghost predicate Reads(ops: Ops, file: seq<byte>, rs: seq<Record>, us: seq<Block>, rest: seq<byte>, result: Result<Block>) {
    && file == WriteAll(rs) + rest && Stand(ops, rs, us)
    && match result
       case Ok(x) => rest == [] && x == Concat(us)
       case Err(e) => Rejected(ops, rs, us, rest, e)
  }

  /* ---------- the cache of the decoder ---------- */

  function CacheOf(ops: Ops, rs: seq<Record>, us: seq<Block>): Cache
    requires |rs| == |us|
  {
    if rs == [] then map[] else
      var n := |rs| - 1;
      var cache := CacheOf(ops, rs[..n], us[..n]);
      if rs[n].Data? then cache[ops.digest(us[n]) := us[n]] else cache
  }

  lemma CacheNext(ops: Ops, rs: seq<Record>, us: seq<Block>, r: Record, u: Block)
    requires |rs| == |us|
    ensures var cache := CacheOf(ops, rs, us);
      CacheOf(ops, rs + [r], us + [u]) == if r.Data? then cache[ops.digest(u) := u] else cache
  {
    assert (rs + [r])[..|rs|] == rs && (us + [u])[..|rs|] == us;
  }

  lemma LatestKept(ops: Ops, rs: seq<Record>, us: seq<Block>, r: Record, u: Block, d: Block, j: int)
    requires |rs| == |us| && Latest(ops, rs, us, d, j) && !(r.Data? && ops.digest(u) == d)
    ensures Latest(ops, rs + [r], us + [u], d, j)
  {
  }

  lemma {:induction false} CacheIs(ops: Ops, rs: seq<Record>, us: seq<Block>, d: Block) returns (j: int)
    requires |rs| == |us|
    ensures d in CacheOf(ops, rs, us) ==> Latest(ops, rs, us, d, j) && us[j] == CacheOf(ops, rs, us)[d]
    ensures d !in CacheOf(ops, rs, us) ==> forall k :: 0 <= k < |rs| && rs[k].Data? ==> ops.digest(us[k]) != d
    decreases rs
  {
    j := -1;
    if rs != [] {
      var n := |rs| - 1;
      j := CacheIs(ops, rs[..n], us[..n], d);
      assert rs == rs[..n] + [rs[n]] && us == us[..n] + [us[n]];
      if rs[n].Data? && ops.digest(us[n]) == d {
        j := n;
      } else if d in CacheOf(ops, rs[..n], us[..n]) {
        LatestKept(ops, rs[..n], us[..n], rs[n], us[n], d, j);
      }
    }
  }

  lemma LatestUnique(ops: Ops, rs: seq<Record>, us: seq<Block>, d: Block, i: int, j: int)
    requires |rs| == |us| && Latest(ops, rs, us, d, i) && Latest(ops, rs, us, d, j)
    ensures i == j
  {
  }

  /* ---------- one record ---------- */

  // The loop accepts a record exactly for what it stands for.
  lemma AcceptIs(ops: Ops, rs: seq<Record>, us: seq<Block>, r: Record, u: Block)
    requires |rs| == |us|
    ensures StandsFor(ops, rs, us, r, u) && (r.Fingerprint? ==> 0 < |u| < 0x8000_0000) ==>
      Accept(ops, CacheOf(ops, rs, us), r) == Ok(Accepted(CacheOf(ops, rs + [r], us + [u]), u))
  {
    CacheNext(ops, rs, us, r, u);
    match r
    case Data(c) => if Holding(ops, c, u) { SizeChecks(|u|); }
    case Fingerprint(d) =>
      if StandsFor(ops, rs, us, r, u) && 0 < |u| < 0x8000_0000 {
        var i :| Latest(ops, rs, us, d, i) && us[i] == u;
        var j := CacheIs(ops, rs, us, d);
        LatestUnique(ops, rs, us, d, i, j);
        SizeChecks(|u|);
      }
  }

  lemma {:induction false} StandSize(ops: Ops, rs: seq<Record>, us: seq<Block>, i: nat)
    requires Stand(ops, rs, us) && i < |rs|
    ensures 0 < |us[i]| < 0x8000_0000
    decreases i
  {
    assert StandsAt(ops, rs, us, i);
    if rs[i].Fingerprint? {
      var j :| Latest(ops, rs[..i], us[..i], rs[i].sha1, j) && us[..i][j] == us[i];
      StandSize(ops, rs, us, j);
    }
  }

  lemma StandInit(ops: Ops, rs: seq<Record>, us: seq<Block>)
    requires Stand(ops, rs, us) && rs != []
    ensures var n := |rs| - 1;
      && Stand(ops, rs[..n], us[..n]) && WellFormed(rs[n]) && StandsFor(ops, rs[..n], us[..n], rs[n], us[n])
      && 0 < |us[n]| < 0x8000_0000
  {
    var n := |rs| - 1;
    assert StandsAt(ops, rs, us, n);
    StandSize(ops, rs, us, n);
    forall i | 0 <= i < n ensures StandsAt(ops, rs[..n], us[..n], i) {
      assert StandsAt(ops, rs, us, i);
      assert rs[..n][..i] == rs[..i] && us[..n][..i] == us[..i];
    }
  }

  lemma StandNext(ops: Ops, rs: seq<Record>, us: seq<Block>, r: Record, u: Block)
    requires Stand(ops, rs, us) && WellFormed(r) && StandsFor(ops, rs, us, r, u)
    ensures Stand(ops, rs + [r], us + [u])
  {
    forall i | 0 <= i <= |rs| ensures StandsAt(ops, rs + [r], us + [u], i) {
      assert (rs + [r])[..i] == rs[..i] && (us + [u])[..i] == us[..i];
      if i < |rs| { assert StandsAt(ops, rs, us, i); } else { assert rs[..i] == rs && us[..i] == us; }
    }
  }

  // A record that stands for u is read, accepted and written as u.
  lemma OneRecord(ops: Ops, rs: seq<Record>, us: seq<Block>, r: Record, u: Block, rest: seq<byte>)
    requires |rs| == |us| && WellFormed(r) && StandsFor(ops, rs, us, r, u) && 0 < |u| < 0x8000_0000
    ensures DecodeFrom(ops, WriteRecord(r) + rest, CacheOf(ops, rs, us)) ==
      Prefixed(u, DecodeFrom(ops, rest, CacheOf(ops, rs + [r], us + [u])))
  {
    ReadWrite(r, rest);
    AcceptIs(ops, rs, us, r, u);
    DecodeFirst(ops, WriteRecord(r) + rest, r, rest, CacheOf(ops, rs, us));
  }

  lemma ReadingNext(ops: Ops, rs: seq<Record>, us: seq<Block>, r: Record, u: Block, rest: seq<byte>, all: Result<Block>)
    requires Stand(ops, rs, us) && WellFormed(r) && StandsFor(ops, rs, us, r, u) && 0 < |u| < 0x8000_0000
    requires all == Prefixed(Concat(us), DecodeFrom(ops, WriteRecord(r) + rest, CacheOf(ops, rs, us)))
    ensures all == Prefixed(Concat(us + [u]), DecodeFrom(ops, rest, CacheOf(ops, rs + [r], us + [u])))
  {
    OneRecord(ops, rs, us, r, u, rest);
    ConcatNext(us, u);
    PrefixedTwice(Concat(us), u, DecodeFrom(ops, rest, CacheOf(ops, rs + [r], us + [u])));
  }

  lemma WriteAllThen(rs: seq<Record>, r: Record, rest: seq<byte>)
    ensures WriteAll(rs + [r]) + rest == WriteAll(rs) + (WriteRecord(r) + rest)
  {
    WriteAllNext(rs, r);
    Associate(WriteAll(rs), WriteRecord(r), rest);
  }

  lemma ReadingNone(ops: Ops, rest: seq<byte>)
    ensures DecodeFrom(ops, WriteAll([]) + rest, map[]) == Prefixed(Concat([]), DecodeFrom(ops, rest, CacheOf(ops, [], [])))
  {
    assert WriteAll([]) + rest == rest && CacheOf(ops, [], []) == map[];
    PrefixedTwice([], [], DecodeFrom(ops, rest, map[]));
  }

  /** Records that stand for us are decoded to us, and decoding goes on behind them. */
  lemma {:induction false} Reading(ops: Ops, rs: seq<Record>, us: seq<Block>, rest: seq<byte>)
    requires Stand(ops, rs, us)
    ensures DecodeFrom(ops, WriteAll(rs) + rest, map[]) == Prefixed(Concat(us), DecodeFrom(ops, rest, CacheOf(ops, rs, us)))
    decreases |rs|
  {
    if rs == [] {
      ReadingNone(ops, rest);
    } else {
      var n := |rs| - 1;
      var r, u := rs[n], us[n];
      StandInit(ops, rs, us);
      Reading(ops, rs[..n], us[..n], WriteRecord(r) + rest);
      InitLast(rs);
      InitLast(us);
      WriteAllThen(rs[..n], r, rest);
      ReadingNext(ops, rs[..n], us[..n], r, u, rest, DecodeFrom(ops, WriteAll(rs) + rest, map[]));
    }
  }

  lemma Stops(ops: Ops, rs: seq<Record>, us: seq<Block>, rest: seq<byte>, e: Error)
    requires |rs| == |us| && Rejected(ops, rs, us, rest, e)
    ensures DecodeFrom(ops, rest, CacheOf(ops, rs, us)) == Err(e)
  {
    if |rest| >= 29 && Kind(rest) == 0 {
      var j := CacheIs(ops, rs, us, rest[9..29]);
      assert rest[9..][..20] == rest[9..29];
    }
    if DataFollows(rest) { assert rest[9..][..Size(rest)] == rest[9..9 + Size(rest)]; }
  }

  // What rest begins with, if nothing stops the decoder there.
  lemma Begins(rest: seq<byte>, size: nat) returns (tail: seq<byte>)
    requires |rest| >= 9 + size && size == Size(rest)
    ensures rest == [rest[0]] + Le(size, LEN_SIZE) + rest[9..9 + size] + tail && |tail| < |rest|
  {
    LeInverse(rest[1..9]);
    tail := rest[9 + size..];
    assert rest == [rest[0]] + rest[1..9] + rest[9..9 + size] + tail;
  }

  // A well-formed record at the beginning of rest.
  lemma Cuts(rest: seq<byte>) returns (r: Record, tail: seq<byte>)
    requires |rest| >= 9
    requires (Kind(rest) == 0 && Size(rest) == 20 && |rest| >= 29) || DataFollows(rest)
    ensures rest == WriteRecord(r) + tail && WellFormed(r) && |tail| < |rest|
    ensures r == if Kind(rest) == 0 then Fingerprint(rest[9..29]) else Data(rest[9..9 + Size(rest)])
  {
    tail := Begins(rest, Size(rest));
    r := if Kind(rest) == 0 then Fingerprint(rest[9..29]) else Data(rest[9..9 + Size(rest)]);
    SizeBound(rest);
  }

  lemma SizeBound(rest: seq<byte>)
    requires |rest| >= 9
    ensures Size(rest) < TWO_64
  {
    LeInverse(rest[1..9]);
    Pow256Is();
  }

  // Either the next record stands for something, or the decoder stops there.
  lemma NextRecord(ops: Ops, rs: seq<Record>, us: seq<Block>, rest: seq<byte>)
    returns (r: Record, u: Block, tail: seq<byte>, e: Option<Error>)
    requires Stand(ops, rs, us) && rest != []
    ensures match e
      case Some(error) => Rejected(ops, rs, us, rest, error)
      case None => rest == WriteRecord(r) + tail && WellFormed(r) && StandsFor(ops, rs, us, r, u) && |tail| < |rest|
  {
    r, u, tail, e := Data([]), [], [], None;
    if |rest| < 9 { return r, u, tail, Some(IncompleteChunk); }
    if Kind(rest) == 0 {
      if Size(rest) != 20 { return r, u, tail, Some(IncorrectSha1Size); }
      if |rest| < 29 { return r, u, tail, Some(IncompleteChunk); }
      r, tail := Cuts(rest);
      var j := CacheIs(ops, rs, us, rest[9..29]);
      if rest[9..29] !in CacheOf(ops, rs, us) { return r, u, tail, Some(MissingUnique); }
      return r, us[j], tail, None;
    }
    if Kind(rest) > 1 { return r, u, tail, Some(UnknownType); }
    if Size(rest) == 0 { return r, u, tail, Some(IllegalSize); }
    if |rest| < 9 + Size(rest) || AsInt(Size(rest)) == 0 { return r, u, tail, Some(IncompleteChunk); }
    if AsInt(Size(rest)) < 0 { return r, u, tail, Some(ReadFails); }
    r, tail := Cuts(rest);
    match ops.decompress(rest[9..9 + Size(rest)]) {
      case None => return r, u, tail, Some(UncompressFails);
      case Some(v) =>
        if AsInt(|v|) <= 0 || (ops.bounded && |v| > 10_000_000) { return r, u, tail, Some(UncompressFails); }
        if |v| >= 0x8000_0000 { return r, u, tail, Some(WriteFails); }
        return r, v, tail, None;
    }
  }

  // Every file is records that stand for something, and then nothing or what stops the decoder.
  lemma Parses(ops: Ops, file: seq<byte>)
    returns (rs: seq<Record>, us: seq<Block>, rest: seq<byte>, result: Result<Block>)
    ensures Reads(ops, file, rs, us, rest, result)
  {
    rs, us, rest := [], [], file;
    assert WriteAll(rs) + rest == rest;
    while rest != []
      invariant file == WriteAll(rs) + rest && Stand(ops, rs, us)
      decreases |rest|
    {
      var r, u, tail, e := NextRecord(ops, rs, us, rest);
      if e.Some? { return rs, us, rest, Err(e.value); }
      StandNext(ops, rs, us, r, u);
      WriteAllThen(rs, r, tail);
      rs, us, rest := rs + [r], us + [u], tail;
    }
    result := Ok(Concat(us));
  }

  // Whatever way a file is read, that is what the decoder does.
  lemma ReadsIs(ops: Ops, file: seq<byte>, rs: seq<Record>, us: seq<Block>, rest: seq<byte>, result: Result<Block>)
    requires Reads(ops, file, rs, us, rest, result)
    ensures DecodeFrom(ops, file, map[]) == result
  {
    Reading(ops, rs, us, rest);
    match result
    case Ok(x) => assert Concat(us) + [] == x;
    case Err(e) => Stops(ops, rs, us, rest, e);
  }

  /** For any input the decoder writes x if and only if the input is a sequence of well-formed
      records in which every compressed chunk can be restored and every fingerprint is that of an
      earlier data record, and x is what they stand for one after another; and it stops with an error if
      and only if the first record at which this fails fails for that reason. */
  lemma DecodeOutcome(ops: Ops, file: seq<byte>, result: Result<Block>)
    ensures DecodeFrom(ops, file, map[]) == result <==> exists rs, us, rest :: Reads(ops, file, rs, us, rest, result)
  {
    var rs, us, rest, parsed := Parses(ops, file);
    ReadsIs(ops, file, rs, us, rest, parsed);
    if rs', us', rest' :| Reads(ops, file, rs', us', rest', result) {
      ReadsIs(ops, file, rs', us', rest', result);
    }
  }
}
