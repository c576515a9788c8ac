/** Appending to a log file left by a crash: when the records added are replayed (`minikv/src/core/wal.cpp`). */
module WalTail {
  import opened Bytes
  import opened Coding
  import opened Crc32c
  import opened Wal

  /** Every byte belongs to a record that replays. */
  predicate IsWhole(file: bytes) {
    file == Log(Replay(file))
  }

  ghost predicate AppendsReplay(file: bytes) {
    forall rs :: AllFit(rs) ==> Replay(file + Log(rs)) == Replay(file) + rs
  }

  lemma FirstIsFrame(f: bytes)
    requires FirstRecord(f).Some?
    ensures var data := FirstRecord(f).value;
            Fits(data) && f[..8 + |data|] == Frame(data)
  {
    hide Checksum, DecodeLE, EncodeLE;
    var data := FirstRecord(f).value;
    Widths();
    DecodeBound(f[4..8]);
    EncodeDecode(f[..4]);
    EncodeDecode(f[4..8]);
    assert f[..8 + |data|] == f[..4] + f[4..8] + data;
  }

  /** Replay reads a front part of the file, which is the log of what it returns. */
  lemma {:induction false} ReplayReadsPrefix(f: bytes)
    ensures AllFit(Replay(f)) && Log(Replay(f)) <= f
    decreases |f|
  {
    hide FirstRecord, Frame;
    if FirstRecord(f).Some? {
      var data := FirstRecord(f).value;
      FirstIsFrame(f);
      ReplayReadsPrefix(f[8 + |data|..]);
      assert Replay(f)[1..] == Replay(f[8 + |data|..]);
      assert f == Frame(data) + f[8 + |data|..];
    }
  }

  lemma WholeAppends(file: bytes)
    requires IsWhole(file)
    ensures AppendsReplay(file)
  {
    hide Log, Replay;
    ReplayReadsPrefix(file);
    forall rs | AllFit(rs) ensures Replay(file + Log(rs)) == Replay(file) + rs {
      ReplayAfter(Replay(file), Log(rs));
      ReplayLog(rs);
    }
  }

  /** What is left of a file when its records are taken away reads as nothing. */
  lemma {:induction false} Leftover(f: bytes)
    ensures Log(Replay(f)) <= f && Replay(f[|Log(Replay(f))|..]) == []
    decreases |f|
  {
    hide FirstRecord, Frame;
    ReplayReadsPrefix(f);
    if FirstRecord(f).None? {
      assert f[0..] == f;
    } else {
      var data := FirstRecord(f).value;
      var rest := f[8 + |data|..];
      FirstIsFrame(f);
      Leftover(rest);
      assert Replay(f)[1..] == Replay(rest);
      assert f[|Log(Replay(f))|..] == rest[|Log(Replay(rest))|..];
    }
  }

  lemma FrameOfOne(data: bytes)
    requires Fits(data)
    ensures Log([data]) == Frame(data) && Frame(data)[4..8] == Fixed32(|data|)
  {
    hide Checksum, Fixed32;
    assert [data][1..] == [];
  }

  lemma SmallLength(v: nat)
    requires v < 256
    ensures Fixed32(v) == [v, 0, 0, 0]
  {
    assert v % U32 == v;
    assert EncodeLE(0, 1) == [0] + EncodeLE(0, 0);
    assert EncodeLE(0, 2) == [0] + EncodeLE(0, 1);
    assert EncodeLE(0, 3) == [0] + EncodeLE(0, 2);
  }

  /** A non-empty file cannot read, with either of two one-record logs behind it, as just that record. */
  lemma TailBlocksOneOf(tail: bytes, f: bytes, g: bytes, a: byte, b: byte)
    requires |tail| > 0 && |f| >= 8 && |g| >= 8 && a != 0 && a != b
    requires f[4..8] == [a, 0, 0, 0] && g[4..8] == [b, 0, 0, 0]
    ensures !(f <= tail + f) || !(g <= tail + g)
  {
    var n := |tail|;
    assert f[4] == a && g[4] == b && f[5] == f[4..8][1] && f[6] == f[4..8][2] && f[7] == f[4..8][3];
    if n < 4 {
      assert f <= tail + f ==> f[4 + n] == (tail + f)[4 + n];
    } else if n == 4 {
      assert f <= tail + f ==> f[4] == (tail + f)[4] && f[0] == (tail + f)[0];
      assert g <= tail + g ==> g[4] == (tail + g)[4] && g[0] == (tail + g)[0];
    } else {
      assert f <= tail + f ==> f[4] == (tail + f)[4];
      assert g <= tail + g ==> g[4] == (tail + g)[4];
    }
  }

  /** Two short records of different lengths: behind a non-empty tail at least one of them is not read back alone. */
  lemma TailHidesOneOf(tail: bytes, a: bytes, b: bytes)
    requires |tail| > 0 && Replay(tail) == [] && 0 < |a| < 256 && |b| < 256 && |a| != |b|
    ensures Replay(tail + Log([a])) != [a] || Replay(tail + Log([b])) != [b]
  {
    hide Log, Replay, Frame, Fixed32;
    FrameOfOne(a);
    FrameOfOne(b);
    SmallLength(|a|);
    SmallLength(|b|);
    TailBlocksOneOf(tail, Frame(a), Frame(b), |a|, |b|);
    ReplayReadsPrefix(tail + Log([a]));
    ReplayReadsPrefix(tail + Log([b]));
  }

  lemma TailAppends(tail: bytes)
    requires |tail| > 0 && Replay(tail) == []
    ensures exists rs :: AllFit(rs) && Replay(tail + Log(rs)) != rs
  {
    hide Log, Replay;
    var a, b: bytes := [0], [0, 0];
    TailHidesOneOf(tail, a, b);
    assert AllFit([a]) && AllFit([b]);
  }

  /** Records appended to a file are replayed, whatever they are, exactly when the file was whole. */
  lemma AppendsReplayIffWhole(file: bytes)
    ensures AppendsReplay(file) <==> IsWhole(file)
  {
    hide Log, Replay;
    if IsWhole(file) {
      WholeAppends(file);
    } else {
      Leftover(file);
      var rs := Replay(file);
      var tail := file[|Log(rs)|..];
      assert file == Log(rs) + tail;
      TailAppends(tail);
      var lost :| AllFit(lost) && Replay(tail + Log(lost)) != lost;
      ReplayReadsPrefix(file);
      ReplayAfter(rs, tail + Log(lost));
      assert Log(rs) + (tail + Log(lost)) == file + Log(lost);
      Cancel(rs, Replay(tail + Log(lost)), lost);
    }
  }

  lemma Cancel(a: seq<bytes>, b: seq<bytes>, c: seq<bytes>)
    requires b != c
    ensures a + b != a + c
  {
    assert (a + b)[|a|..] == b;
    assert (a + c)[|a|..] == c;
  }

  /**
    The family of failures in `recover`: a record torn after its header hides every record appended behind it
    that is too short to reach the promised length.
   */
  lemma TornTailHidesAppends(before: seq<bytes>, data: bytes, n: nat, later: seq<bytes>)
    requires AllFit(before) && Fits(data) && 8 <= n && n + |Log(later)| < |Frame(data)|
    ensures Replay(Log(before) + (Frame(data)[..n] + Log(later))) == before
  {
    hide Log, Frame;
    TornTailHides(data, n, Log(later));
    ReplayAfter(before, Frame(data)[..n] + Log(later));
    assert before + [] == before;
  }

  lemma TornTailHides(data: bytes, n: nat, more: bytes)
    requires Fits(data) && 8 <= n && n + |more| < |Frame(data)|
    ensures Replay(Frame(data)[..n] + more) == []
  {
    hide Checksum, DecodeLE;
    var f := Frame(data)[..n] + more;
    FrameParts(data, []);
    assert Frame(data) + [] == Frame(data);
    assert f[4..8] == Frame(data)[4..8];
    assert FirstRecord(f).None?;
  }
}
