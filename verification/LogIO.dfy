/** Reading and writing framed logs step by step (pkg/wal/wal.go, reader.go). */
module LogIO {
  import opened Bytes
  import opened Wal

  class LogFile {
    const reliable: bool   // opening, writing and syncing never fail
    var bytes: seq<byte>

    constructor (bytes: seq<byte>, reliable: bool)
      ensures this.bytes == bytes && this.reliable == reliable
    {
      this.bytes, this.reliable := bytes, reliable;
    }

    /** Whether the next operation fails: up to the environment, unless the file is reliable. */
    method Fails() returns (fails: bool)
      ensures reliable ==> !fails
    {
      fails := *;
      fails := fails && !reliable;
    }
  }

  datatype Error = NoError | EOF | CorruptHeader | CorruptPayload | PayloadTooLarge | ChecksumMismatch | Refused

  /** The resumable reader; tolerance of a truncated tail is switched off. */
  class Reader {
    const crc: Checksum
    const file: seq<byte>
    const maxPayload: nat
    const allowTail := false
    var off: nat
    var lastGoodOffset: nat
    var truncatedTail: bool

    constructor (crc: Checksum, file: seq<byte>, offset: nat)
      ensures this.crc == crc && this.file == file && off == offset && lastGoodOffset == offset
      ensures maxPayload == DEFAULT_MAX_PAYLOAD && !truncatedTail
    {
      this.crc, this.file, this.maxPayload := crc, file, DEFAULT_MAX_PAYLOAD;
      off, lastGoodOffset, truncatedTail := offset, offset, false;
    }

    /** One record. On success both offsets move to its end; otherwise they stay. */
    method Next() returns (payload: seq<byte>, next: nat, err: Error)
      requires off <= |file|
      modifies this
      ensures off <= |file| && next == off
      ensures match ReadFrame(crc, maxPayload, file[old(off)..])
              case Record(p, rest) =>
                err == NoError && payload == p && off == old(off) + HEADER_SIZE + |p| && file[off..] == rest
                && lastGoodOffset == off
              case End => err == EOF && off == old(off) && truncatedTail == old(truncatedTail)
              case HeaderOnly => err == EOF && off == old(off) && truncatedTail == old(truncatedTail)
              case CutHeader => err == CorruptHeader && off == old(off) && truncatedTail
              case CutPayload => err == CorruptPayload && off == old(off) && truncatedTail
              case TooLarge => err == PayloadTooLarge && off == old(off)
              case BadSum => err == ChecksumMismatch && off == old(off)
      ensures err != NoError ==> lastGoodOffset == old(lastGoodOffset)
    {
      payload, next, err := [], off, NoError;
      var left := |file| - off;
      if left == 0 {
        return payload, next, EOF;
      }
      if left < HEADER_SIZE {
        truncatedTail := true;
        return payload, next, if allowTail then EOF else CorruptHeader;
      }
      ghost var s := file[off..];
      var hdr := file[off..off + HEADER_SIZE];
      assert hdr == s[..HEADER_SIZE] && hdr[..4] == s[..4] && hdr[4..] == s[4..8];
      var ln, sum := FromLE(hdr[..4]), FromLE(hdr[4..]);
      if ln > maxPayload {
        return payload, next, PayloadTooLarge;
      }
      left := left - HEADER_SIZE;
      if ln > 0 && left == 0 {
        return payload, next, EOF;
      }
      if left < ln {
        truncatedTail := true;
        return payload, next, if allowTail then EOF else CorruptPayload;
      }
      payload := file[off + HEADER_SIZE..off + HEADER_SIZE + ln];
      assert payload == s[HEADER_SIZE..HEADER_SIZE + ln];
      if crc(payload) != sum {
        return [], next, ChecksumMismatch;
      }
      assert file[off + HEADER_SIZE + ln..] == s[HEADER_SIZE + ln..];
      off := off + HEADER_SIZE + ln;
      lastGoodOffset := off;
      return payload, off, NoError;
    }
  }

  /** The buffered appending writer. Any write may push any part of the buffer to the file, and any
      write may fail after a part of it; a failure is remembered and refuses every later write. */
  class Writer {
    const crc: Checksum
    const file: LogFile
    var buf: seq<byte>
    var failed: bool
    ghost var intended: seq<byte>

    /** The file holds a prefix of all that was ever meant to be written, and together with the
        buffer all of it, unless a write has failed. */
    ghost predicate Valid()
      reads this, file
    {
      && file.bytes <= intended
      && (!failed ==> file.bytes + buf == intended)
    }

    constructor (crc: Checksum, file: LogFile)
      ensures Valid() && this.crc == crc && this.file == file && !failed && intended == file.bytes && buf == []
    {
      this.crc, this.file, buf, failed, intended := crc, file, [], false, file.bytes;
    }

    /** Buffered write of p; n bytes reach the file now, and the write may fail there. */
    method Put(p: seq<byte>, n: nat, fails: bool) returns (ok: bool)
      requires Valid()
      modifies this, file
      ensures Valid() && intended == old(intended) + p && old(file.bytes) <= file.bytes
      ensures ok == !failed && failed == (old(failed) || fails)
    {
      intended := intended + p;
      if failed {
        return false;
      }
      var all := buf + p;
      var k := if n <= |all| then n else |all|;
      assert file.bytes + all == intended;
      file.bytes := file.bytes + all[..k];
      buf := all[k..];
      assert file.bytes + buf == intended;
      failed := fails;
      return !fails;
    }

    /** Header, then payload. */
    method Append(payload: seq<byte>) returns (ok: bool)
      requires Valid()
      modifies this, file
      ensures Valid() && intended == old(intended) + Frame(crc, payload) && old(file.bytes) <= file.bytes
      ensures ok == !failed && (old(failed) ==> failed) && (file.reliable ==> failed == old(failed))
    {
      var n1: nat :| true;
      var n2: nat :| true;
      var fails1 := file.Fails();
      var fails2 := file.Fails();
      ok := Put(LE(|payload| % 0x1_0000_0000, 4) + LE(crc(payload), 4), n1, fails1);
      if !ok {
        intended := intended + payload;
        return;
      }
      ok := Put(payload, n2, fails2);
    }

    /** Empties the buffer and syncs. A failed sync is reported but not remembered. */
    method Flush() returns (ok: bool)
      requires Valid()
      modifies this, file
      ensures Valid() && intended == old(intended) && old(file.bytes) <= file.bytes && (old(failed) ==> failed)
      ensures ok ==> !failed && file.bytes == intended
      ensures file.reliable && !old(failed) ==> ok
    {
      if failed {
        return false;
      }
      var fails := file.Fails();
      var syncFails := file.Fails();
      var k :| 0 <= k <= |buf| && (!fails ==> k == |buf|);
      assert file.bytes + buf[..k] + buf[k..] == intended;
      file.bytes := file.bytes + buf[..k];
      buf := buf[k..];
      failed := fails;
      return !fails && !syncFails;
    }
  }

  datatype Stats = Stats(records: nat, bytesRead: nat, lastGoodOffset: nat, truncatedTail: bool)

  /** The error a whole-file replay ends with. */
  function ReplayError(end: Item, allowTruncatedTail: bool): Error {
    match end
    case End => NoError
    case CutHeader => if allowTruncatedTail then NoError else CorruptHeader
    case CutPayload => if allowTruncatedTail then NoError else CorruptPayload
    case HeaderOnly => EOF
    case TooLarge => PayloadTooLarge
    case _ => ChecksumMismatch
  }

  /** A replay ends well at the end of the file, and if that is allowed also in a cut header or payload; a bare
      header is never allowed. */
  lemma EndsWell(end: Item, allowTruncatedTail: bool)
    requires !end.Record?
    ensures ReplayError(end, allowTruncatedTail) == NoError <==>
            end.End? || (allowTruncatedTail && (end.CutHeader? || end.CutPayload?))
    ensures end.HeaderOnly? ==> ReplayError(end, allowTruncatedTail) == EOF
  {
  }

  lemma ParseMore(crc: Checksum, max: nat, got: seq<seq<byte>>, s: seq<byte>)
    ensures var r := ReadFrame(crc, max, s);
            if r.Record? then
              && |s| == HEADER_SIZE + |r.payload| + |r.rest| && r.rest == s[HEADER_SIZE + |r.payload|..]
              && got + Parse(crc, max, s).0 == (got + [r.payload]) + Parse(crc, max, r.rest).0
              && Parse(crc, max, s).1 == Parse(crc, max, r.rest).1
            else Parse(crc, max, s) == ([], r) && got + [] == got
  {
  }

  /** Delivers the records from the start of the file until the callback refuses one, and reports how the
      file ended. `refuses` is the callback's answer to the last of the records handed to it. */
  method ReplayFile(crc: Checksum, file: seq<byte>, maxPayload: int, allowTruncatedTail: bool,
                    refuses: seq<seq<byte>> -> bool)
    returns (delivered: seq<seq<byte>>, st: Stats, err: Error)
    ensures forall i :: 0 < i < |delivered| ==> !refuses(delivered[..i])
    ensures err == Refused <==> delivered != [] && refuses(delivered)
    ensures st.lastGoodOffset <= |file|
    ensures var max := if maxPayload <= 0 then DEFAULT_MAX_PAYLOAD else maxPayload;
            var (ps, end) := Parse(crc, max, file);
            if err == Refused then
              delivered <= ps && st == Stats(|delivered| - 1, Size(delivered), Size(delivered[..|delivered| - 1]), false)
            else
              && delivered == ps && err == ReplayError(end, allowTruncatedTail)
              && st == Stats(|ps|, Size(ps), Size(ps), end.CutHeader? || end.CutPayload?)
              && ReadFrame(crc, max, file[st.lastGoodOffset..]) == end
  {
    hide Parse, ReadFrame, Size;
    var max := if maxPayload <= 0 then DEFAULT_MAX_PAYLOAD else maxPayload;
    delivered := [];
    var off := 0;
    assert file[0..] == file;
    assert [] + Parse(crc, max, file).0 == Parse(crc, max, file).0;
    SizeMore([], []);
    while true
      invariant off == Size(delivered) <= |file|
      invariant Parse(crc, max, file).0 == delivered + Parse(crc, max, file[off..]).0
      invariant Parse(crc, max, file).1 == Parse(crc, max, file[off..]).1
      invariant forall i :: 0 < i <= |delivered| ==> !refuses(delivered[..i])
      decreases |file| - off
    {
      var item := ReadFrame(crc, max, file[off..]);
      st := Stats(|delivered|, off, off, item.CutHeader? || item.CutPayload?);
      ParseMore(crc, max, delivered, file[off..]);
      assert delivered[..|delivered|] == delivered;
      if !item.Record? {
        return delivered, st, ReplayError(item, allowTruncatedTail);
      }
      var n := HEADER_SIZE + |item.payload|;
      assert file[off..][n..] == file[off + n..];
      SizeMore(delivered, item.payload);
      off := off + n;
      st := st.(bytesRead := off);
      var handed := delivered + [item.payload];
      assert handed[..|handed|] == handed && handed[..|delivered|] == delivered;
      assert forall i :: 0 <= i < |handed| ==> handed[..i] == delivered[..i];
      if refuses(handed) {
        return handed, st, Refused;
      }
      delivered := handed;
    }
  }

  lemma SizeMore(ps: seq<seq<byte>>, p: seq<byte>)
    ensures Size([]) == 0 && Size(ps + [p]) == Size(ps) + HEADER_SIZE + |p|
  {
    FramesAppend(_ => 0, ps, [p]);
    assert Size([p]) == HEADER_SIZE + |p|;
  }
}
