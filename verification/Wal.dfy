/** The write-ahead log file: checksummed frames, replayed until the first bad one (`minikv/src/core/wal.cpp`). */
module Wal {
  import opened Bytes
  import opened Coding
  import opened Crc32c

  /** The low 32 bits of the size, and the bytes `append` really writes. */
  function Length(data: bytes): nat {
    |data| % U32
  }

  function Frame(data: bytes): (f: bytes)
    ensures |f| == 8 + Length(data)
  {
    Fixed32(Checksum(data)) + Fixed32(|data|) + data[..Length(data)]
  }

  function Log(records: seq<bytes>): bytes {
    if |records| == 0 then [] else Frame(records[0]) + Log(records[1..])
  }

  /** The record at the front of a file, if whole and intact. */
  function FirstRecord(f: bytes): (r: Option<bytes>)
    ensures r.Some? ==> 8 + |r.value| <= |f|
  {
    if |f| < 8 then None
    else
      var crc, len := DecodeLE(f[..4]), DecodeLE(f[4..8]);
      if |f| - 8 < len || Checksum(f[8..8 + len]) != crc then None else Some(f[8..8 + len])
  }

  function Replay(f: bytes): seq<bytes>
    decreases |f|
  {
    match FirstRecord(f)
    case None => []
    case Some(data) => [data] + Replay(f[8 + |data|..])
  }

  predicate Fits(data: bytes) {
    |data| < U32
  }

  lemma FrameParts(data: bytes, rest: bytes)
    requires Fits(data)
    ensures var f := Frame(data) + rest;
            DecodeLE(f[..4]) == Checksum(data) && DecodeLE(f[4..8]) == |data| &&
            f[8..8 + |data|] == data && f[8 + |data|..] == rest
  {
    hide Checksum, Fixed32, DecodeLE;
    var f := Frame(data) + rest;
    Fixed32RoundTrip(Checksum(data));
    Fixed32RoundTrip(|data|);
    assert f[..4] == Fixed32(Checksum(data));
    assert f[4..8] == Fixed32(|data|);
    assert f[8..8 + |data|] == data;
  }

  lemma FirstOfFrame(data: bytes, rest: bytes)
    requires Fits(data)
    ensures FirstRecord(Frame(data) + rest) == Some(data)
    ensures (Frame(data) + rest)[8 + |data|..] == rest
  {
    hide Checksum, Frame, DecodeLE;
    FrameParts(data, rest);
  }

  /** A torn frame is not read: its length field promises more bytes than there are. */
  lemma TornFrame(data: bytes, n: nat)
    requires Fits(data) && n < |Frame(data)|
    ensures FirstRecord(Frame(data)[..n]) == None
  {
    hide Checksum, DecodeLE;
    if n >= 8 {
      FrameParts(data, []);
      var f := Frame(data);
      assert f + [] == f;
      assert f[..n][4..8] == f[4..8];
    }
  }

  /** Nor does cutting bytes off make a record where none is. */
  lemma NothingFirst(f: bytes, n: nat)
    requires FirstRecord(f).None? && n <= |f|
    ensures FirstRecord(f[..n]).None?
  {
    hide Checksum, DecodeLE;
    if n >= 8 {
      assert f[..n][..4] == f[..4] && f[..n][4..8] == f[4..8];
      var len := DecodeLE(f[4..8]);
      if n - 8 >= len { assert f[..n][8..8 + len] == f[8..8 + len]; }
    }
  }

  /** How many whole frames the first `n` bytes of a log hold. */
  function Whole(records: seq<bytes>, n: nat): (w: nat)
    ensures w <= |records|
  {
    if |records| == 0 || n < |Frame(records[0])| then 0 else 1 + Whole(records[1..], n - |Frame(records[0])|)
  }

  ghost predicate AllFit(records: seq<bytes>) {
    forall i :: 0 <= i < |records| ==> Fits(records[i])
  }

  lemma {:induction false} WholeLog(records: seq<bytes>)
    ensures Whole(records, |Log(records)|) == |records|
  {
    hide Frame;
    if |records| > 0 { WholeLog(records[1..]); }
  }

  lemma {:induction false} WholeAtLeast(a: seq<bytes>, b: seq<bytes>, n: nat)
    requires |Log(a)| <= n
    ensures Whole(a + b, n) >= |a|
  {
    hide Frame;
    if |a| > 0 {
      assert (a + b)[1..] == a[1..] + b;
      WholeAtLeast(a[1..], b, n - |Frame(a[0])|);
    }
  }

  /** Replaying any byte-prefix of a log yields exactly the records whose frames survived whole. */
  lemma {:induction false} ReplayPrefix(records: seq<bytes>, n: nat)
    requires AllFit(records) && n <= |Log(records)|
    ensures Replay(Log(records)[..n]) == records[..Whole(records, n)]
    decreases |records|
  {
    hide Frame, FirstRecord;
    var f := Log(records)[..n];
    if |records| == 0 {
      EmptyFile(f);
    } else {
      var data, rest := records[0], Log(records[1..]);
      if n < |Frame(data)| {
        assert f == Frame(data)[..n];
        TornFrame(data, n);
      } else {
        var m := n - |Frame(data)|;
        assert f == Frame(data) + rest[..m];
        FirstOfFrame(data, rest[..m]);
        ReplayPrefix(records[1..], m);
        assert records[..Whole(records, n)] == [data] + records[1..][..Whole(records[1..], m)];
      }
    }
  }

  lemma EmptyFile(f: bytes)
    requires |f| == 0
    ensures FirstRecord(f) == None
  {
  }

  lemma ReplayLog(records: seq<bytes>)
    requires AllFit(records)
    ensures Replay(Log(records)) == records
  {
    hide Log, Replay, Whole;
    assert Log(records)[..|Log(records)|] == Log(records);
    WholeLog(records);
    ReplayPrefix(records, |Log(records)|);
  }

  lemma ReplayStep(data: bytes, tail: bytes)
    requires Fits(data)
    ensures Replay(Frame(data) + tail) == [data] + Replay(tail)
  {
    hide Frame, FirstRecord;
    FirstOfFrame(data, tail);
  }

  lemma {:induction false} ReplayAfter(records: seq<bytes>, rest: bytes)
    requires AllFit(records)
    ensures Replay(Log(records) + rest) == records + Replay(rest)
  {
    hide Frame, Replay;
    if |records| == 0 {
      assert Log(records) + rest == rest;
      assert records + Replay(rest) == Replay(rest);
    } else {
      var tail := Log(records[1..]) + rest;
      assert Log(records) + rest == Frame(records[0]) + tail;
      ReplayStep(records[0], tail);
      ReplayAfter(records[1..], rest);
      assert [records[0]] + (records[1..] + Replay(rest)) == records + Replay(rest);
    }
  }

  /** Cut anywhere, a file that begins with these records replays those that are whole first. */
  lemma CutReplays(content: bytes, rs: seq<bytes>, cut: nat)
    requires AllFit(rs) && Log(rs) <= content && cut <= |content|
    ensures rs[..Whole(rs, cut)] <= Replay(content[..cut])
  {
    hide Log, Replay, Whole;
    var front := Log(rs);
    if cut <= |front| {
      assert content[..cut] == front[..cut];
      ReplayPrefix(rs, cut);
    } else {
      var rest := content[|front|..cut];
      assert content[..cut] == front + rest;
      ReplayAfter(rs, rest);
    }
  }

  lemma {:induction false} LogConcat(a: seq<bytes>, b: seq<bytes>)
    ensures Log(a + b) == Log(a) + Log(b)
  {
    hide Frame;
    if |a| == 0 {
      assert a + b == b;
    } else {
      assert (a + b)[1..] == a[1..] + b;
      LogConcat(a[1..], b);
    }
  }

  // ---- Corruption ----

  lemma ReplayNext(f: bytes)
    ensures FirstRecord(f).None? ==> Replay(f) == []
    ensures FirstRecord(f).Some? ==> Replay(f) == [FirstRecord(f).value] + Replay(f[8 + |FirstRecord(f).value|..])
  {
    hide FirstRecord;
  }

  /** A frame whose payload was altered in up to four consecutive bytes. */
  function Corrupted(pre: bytes, x: bytes, y: bytes, post: bytes): bytes
    requires |x| == |y|
  {
    Frame(pre + x + post)[..8] + (pre + y + post)
  }

  lemma ChecksumWhole(data: bytes)
    requires |data| < 0x8000_0000
    ensures Checksum(data) == Crc(data, |data|)
  {
    assert AsInt(|data|) == |data|;
  }

  /** Past 2^31 bytes the signed length is negative, and the checksum no longer depends on the data. */
  lemma ChecksumBlind(d: bytes, e: bytes)
    requires |d| == |e| && 0x8000_0000 <= |d| < U32
    ensures Checksum(d) == Checksum(e)
  {
    assert AsInt(|d|) == AsInt(|e|) < 0;
  }

  /** The damaged frame is not read exactly when its payload is shorter than 2^31 bytes; otherwise it reads as data. */
  lemma CorruptedRead(pre: bytes, x: bytes, y: bytes, post: bytes, rest: bytes)
    requires |x| == |y| <= 4 && x != y && Fits(pre + x + post)
    ensures FirstRecord(Corrupted(pre, x, y, post) + rest)
         == if |pre + x + post| < 0x8000_0000 then None else Some(pre + y + post)
  {
    hide Crc, Frame, DecodeLE, Checksum;
    var d, e := pre + x + post, pre + y + post;
    var f := Corrupted(pre, x, y, post) + rest;
    FrameParts(d, []);
    assert Frame(d) + [] == Frame(d);
    assert f[..4] == Frame(d)[..4] && f[4..8] == Frame(d)[4..8];
    assert f[8..8 + |d|] == e;
    if |d| < 0x8000_0000 {
      BurstDetected(pre, x, y, post);
      ChecksumWhole(d);
      ChecksumWhole(e);
    } else {
      ChecksumBlind(d, e);
    }
  }

  /**
   One damaged payload stops the replay at exactly the records before it, whatever follows, if and only if the
   payload is shorter than 2^31 bytes.
   */
  lemma CorruptionStopsReplay(before: seq<bytes>, pre: bytes, x: bytes, y: bytes, post: bytes, rest: bytes)
    requires AllFit(before)
    requires |x| == |y| <= 4 && x != y && Fits(pre + x + post)
    ensures Replay(Log(before) + (Corrupted(pre, x, y, post) + rest)) == before <==> |pre + x + post| < 0x8000_0000
  {
    hide Corrupted, FirstRecord, Log;
    var f := Corrupted(pre, x, y, post) + rest;
    CorruptedRead(pre, x, y, post, rest);
    ReplayAfter(before, f);
    assert |Replay(f)| == 0 <==> FirstRecord(f).None?;
    assert before + Replay(f) == before <==> |Replay(f)| == 0;
  }

  // ---- The file ----

  class WAL {
    var content: bytes
    var synced: nat

    ghost predicate Valid()
      reads this
    {
      synced <= |content|
    }

    constructor (existing: bytes)
      ensures Valid() && content == existing && synced == |existing|
    {
      content, synced := existing, |existing|;
    }

    /** `append`; `accepted` is how many bytes of the frame the operating system takes. */
    method Append(data: bytes, accepted: nat) returns (ok: bool)
      requires Valid()
      modifies `content
      ensures Valid()
      ensures ok <==> accepted >= |Frame(data)|
      ensures content == old(content) + (if ok then Frame(data) else Frame(data)[..accepted])
    {
      hide Checksum, Fixed32;
      var len := |data| % U32;
      var header := Fixed32(Checksum(data)) + Fixed32(|data|);
      if accepted < 8 {
        content := content + header[..accepted];
        assert header[..accepted] == Frame(data)[..accepted];
        return false;
      }
      content := content + header;
      if accepted < 8 + len {
        content := content + data[..accepted - 8];
        assert Frame(data)[..accepted] == header + data[..accepted - 8];
        return false;
      }
      content := content + data[..len];
      return true;
    }

    /** `sync`; `works` is whether `fdatasync` succeeds. */
    method Sync(works: bool) returns (ok: bool)
      requires Valid()
      modifies `synced
      ensures Valid() && ok == works && synced == if ok then |content| else old(synced)
    {
      if works { synced := |content|; }
      ok := works;
    }

    /** `replay`: reads headers and payloads until one is short or fails its checksum. */
    method ReplayAll() returns (records: seq<bytes>)
      ensures records == Replay(content)
    {
      hide Checksum, DecodeLE, Replay;
      records := [];
      var p := 0;
      assert content[0..] == content;
      while true
        invariant 0 <= p <= |content|
        invariant Replay(content) == records + Replay(content[p..])
        decreases |content| - p
      {
        ghost var f := content[p..];
        ReplayNext(f);
        if |content| - p < 8 { break; }
        var crc, len := DecodeLE(content[p..p + 4]), DecodeLE(content[p + 4..p + 8]);
        assert f[..4] == content[p..p + 4] && f[4..8] == content[p + 4..p + 8];
        if |content| - p - 8 < len { break; }
        var data := content[p + 8..p + 8 + len];
        assert f[8..8 + len] == data;
        if Checksum(data) != crc { break; }
        records := records + [data];
        assert f[8 + len..] == content[p + 8 + len..];
        p := p + 8 + len;
      }
    }
  }
}
