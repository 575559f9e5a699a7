/** The gzip writer object of curl/lib/content_encoding.c, its pointers as offsets. */
module ZlibWriter {
  import opened Bytes
  import opened GzipHeader
  import opened Gzip = GzipWriter

  /** `struct zlib_writer`; `inflate` stands for zlib and `consumed` for the stream state it keeps. */
  class Writer {
    const inflate: Inflate
    var zlibInit: Phase
    var trailerlen: nat
    var block: seq<byte>      // the memory next_in points into
    var nextIn: nat           // next_in, as an offset in it
    var availIn: nat
    var consumed: seq<byte>

    ghost predicate Valid()
      reads this
    {
      && Consumer(inflate)
      && (zlibInit in {Init, GzipHeader, GzipInflating} ==> inflate(consumed) == More)
      && (zlibInit == GzipHeader ==> nextIn == 0 && availIn == |block| && Check(block).Underflow?)
    }

    ghost function View(): State
      reads this
    {
      State(zlibInit, if zlibInit == GzipHeader then block else [], trailerlen, consumed)
    }

    constructor (inflate: Inflate)
      requires Consumer(inflate)
      ensures Valid() && View() == Start && this.inflate == inflate
    {
      this.inflate := inflate;
      zlibInit, trailerlen, consumed := Init, TRAILER, [];
      block, nextIn, availIn := [], 0, 0;
    }

    ghost predicate Follows(w: Result, code: Code)
      reads this
    {
      && (w.Fine? ==> code == OK && View() == w.s)
      && (w.Failed? ==> code == w.code != OK && zlibInit == Uninit)
    }

    /** `exit_zlib` when inflateEnd succeeds. */
    method ExitZlib(result: Code) returns (code: Code)
      modifies this
      ensures code == result && zlibInit == Uninit
      ensures trailerlen == old(trailerlen) && consumed == old(consumed)
    {
      if zlibInit == GzipHeader {
        block := [];
      }
      if zlibInit != Uninit {
        zlibInit := Uninit;
      }
      code := result;
    }

    /** Takes the expected trailer bytes; an error when others follow, the end of the stream when none is missing. */
    method ProcessTrailer() returns (code: Code)
      requires Consumer(inflate) && zlibInit != GzipHeader && nextIn + availIn <= |block|
      modifies this
      ensures Valid() && Follows(Gzip.ProcessTrailer(old(View()), old(availIn)), code)
    {
      var len := if availIn < trailerlen then availIn else trailerlen;
      trailerlen := trailerlen - len;
      availIn := availIn - len;
      nextIn := nextIn + len;
      code := OK;
      if availIn != 0 {
        code := WriteError;
      }
      if code != OK || trailerlen == 0 {
        code := ExitZlib(code);
      } else {
        zlibInit := ExternalTrailer;
      }
    }

    /** Offers the bytes at `next_in` to inflate and acts on its verdict. */
    method InflateStream() returns (code: Code)
      requires Consumer(inflate) && zlibInit != GzipHeader && nextIn + availIn <= |block| && availIn > 0
      requires zlibInit == GzipInflating ==> inflate(consumed) == More
      modifies this
      ensures Valid()
      ensures Follows(Gzip.InflateStream(inflate, old(View()), old(block[nextIn..nextIn + availIn])), code)
    {
      hide Consumer;
      if zlibInit != GzipInflating {
        code := ExitZlib(WriteError);
        return;
      }
      var input := block[nextIn..nextIn + availIn];
      var all := consumed + input;
      code := OK;
      match inflate(all)
      case More =>
        consumed, nextIn, availIn := all, nextIn + availIn, 0;
      case Fail =>
        code := ExitZlib(BadContentEncoding);
      case End(used) =>
        UsedIsBounded(inflate, consumed, input);
        var rest := |all| - used;
        nextIn, availIn := nextIn + (availIn - rest), rest;
        consumed := all[..used];
        code := ProcessTrailer();
    }

    /** `Curl_unencode_write`: `gzip_unencode_write` when there are bytes. */
    method Write(buf: seq<byte>) returns (code: Code)
      requires Valid()
      modifies this
      ensures Valid() && Follows(Gzip.Write(inflate, old(View()), buf), code)
    {
      hide Consumer, Check, Gzip.InflateStream, Gzip.ProcessTrailer;
      if |buf| == 0 {
        return OK;
      }
      match zlibInit
      case Init =>
        code := WriteFirst(buf);
      case GzipHeader =>
        code := WriteHeader(buf);
      case ExternalTrailer =>
        block, nextIn, availIn := buf, 0, |buf|;
        code := ProcessTrailer();
      case _ =>
        block, nextIn, availIn := buf, 0, |buf|;
        assert buf[0..|buf|] == buf;
        code := InflateStream();
    }

    /** The state in which no byte has come yet. */
    method WriteFirst(buf: seq<byte>) returns (code: Code)
      requires Valid() && zlibInit == Init && |buf| > 0
      modifies this
      ensures Valid() && Follows(Gzip.Write(inflate, old(View()), buf), code)
    {
      hide Consumer, Check, Gzip.InflateStream;
      var verdict := CheckGzipHeader(buf);
      match verdict
      case Ok(hlen) =>
        VerdictIsStable(buf, []);
        block, nextIn, availIn := buf, hlen, |buf| - hlen;
        zlibInit := GzipInflating;
        assert buf[hlen..hlen + (|buf| - hlen)] == buf[hlen..];
        code := InflateWhatIsThere();
      case Underflow =>
        block, nextIn, availIn := buf, 0, |buf|;
        zlibInit := GzipHeader;
        code := OK;
      case Bad =>
        code := ExitZlib(BadContentEncoding);
    }

    /** The state in which the header is not complete: the bytes are appended to those kept. */
    method WriteHeader(buf: seq<byte>) returns (code: Code)
      requires Valid() && zlibInit == GzipHeader && |buf| > 0
      modifies this
      ensures Valid() && Follows(Gzip.Write(inflate, old(View()), buf), code)
    {
      hide Consumer, Check, Gzip.InflateStream;
      availIn := availIn + |buf|;
      ghost var kept := block;
      block := block + buf;
      var verdict := CheckGzipHeader(block);
      match verdict
      case Ok(hlen) =>
        EndIsPastTheBuffer(kept, buf);
        SameRest(kept, buf, hlen);
        nextIn := hlen + |buf| - availIn;
        block := buf;
        availIn := availIn - hlen;
        zlibInit := GzipInflating;
        assert 0 < nextIn <= |buf| && nextIn + availIn == |buf|;
        assert buf[nextIn..nextIn + availIn] == buf[nextIn..];
        code := InflateWhatIsThere();
      case Underflow =>
        code := OK;
      case Bad =>
        code := ExitZlib(BadContentEncoding);
    }

    /** Waits for the next call when the header ended with this one. */
    method InflateWhatIsThere() returns (code: Code)
      requires Consumer(inflate) && zlibInit == GzipInflating && inflate(consumed) == More
      requires nextIn + availIn <= |block|
      modifies this
      ensures Valid()
      ensures Follows(Gzip.InflateStream(inflate, old(View()), old(block[nextIn..nextIn + availIn])), code)
    {
      hide Consumer;
      if availIn == 0 {
        code := OK;
      } else {
        code := InflateStream();
      }
    }
  }
}
