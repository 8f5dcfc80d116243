/** The copy loop between two streams (core/pipe.go) against any io.Reader and any io.Writer. */
module Pipe {
  import opened Prelude
  import opened Bytes

  const SOCKET_BUF: nat := 20480

  /** A reader that delivers remaining in any pieces and then reports final, with the last piece or
      after it; now and then it returns nothing. */
  class Source {
    var remaining: seq<byte>
    var idle: nat  // how many more times it may return nothing
    const final: Error

    constructor (remaining: seq<byte>, idle: nat, final: Error)
      ensures this.remaining == remaining && this.idle == idle && this.final == final
    {
      this.remaining, this.idle, this.final := remaining, idle, final;
    }

    method Read(buf: array<byte>) returns (n: nat, err: Option<Error>)
      requires buf.Length > 0
      modifies this, buf
      ensures n <= buf.Length && n <= |old(remaining)| && buf[..n] == old(remaining)[..n]
      ensures remaining == old(remaining)[n..]
      ensures err.Some? ==> remaining == [] && err.value == final
      ensures idle <= old(idle) && (err == None && n == 0 ==> idle < old(idle))
    {
      n, err := 0, None;
      var rest: bool := *;
      if idle > 0 && rest {
        idle := idle - 1;
        return;
      }
      if remaining != [] {
        assert 1 <= buf.Length && 1 <= |remaining|;
        n :| 1 <= n <= buf.Length && n <= |remaining|;
        forall k | 0 <= k < n { buf[k] := remaining[k]; }
        remaining := remaining[n..];
      }
      var ends: bool := *;
      if remaining == [] && (ends || n == 0) { err := Some(final); }
    }
  }

  /** A writer that may take everything, take less, fail, or report an impossible count. */
  class Sink {
    var accepted: seq<byte>
    var trouble: bool   // some write was not a full success
    var nonsense: bool  // some write reported an impossible count

    constructor ()
      ensures accepted == [] && !trouble && !nonsense
    {
      accepted, trouble, nonsense := [], false, false;
    }

    method Write(p: seq<byte>) returns (nw: int, err: Option<Error>)
      modifies this
      ensures trouble == (old(trouble) || err.Some? || nw != |p|)
      ensures nonsense == (old(nonsense) || !(0 <= nw <= |p|))
      ensures 0 <= nw <= |p| ==> accepted == old(accepted) + p[..nw]
    {
      nw := *;
      err := *;
      if 0 <= nw <= |p| { accepted := accepted + p[..nw]; }
      trouble := trouble || err.Some? || nw != |p|;
      nonsense := nonsense || !(0 <= nw <= |p|);
    }
  }

  /** The loop ends without error exactly when every write took everything and the source ended with
      EOF; then, and whenever the writes went well, all bytes arrived, the last ones included even
      when they came together with the end. Otherwise the bytes counted are the bytes that arrived. */
  method UnidirectionalStream(dst: Sink, src: Source) returns (written: nat, err: Option<Error>)
    requires !dst.trouble && !dst.nonsense
    modifies dst, src
    ensures err == None <==> !dst.trouble && src.final == EOF
    ensures !dst.trouble ==>
              src.remaining == [] && written == |old(src.remaining)| &&
              dst.accepted == old(dst.accepted) + old(src.remaining) && (err == None || err == Some(src.final))
    ensures written <= |old(src.remaining)|
    ensures !dst.nonsense ==> dst.accepted == old(dst.accepted) + old(src.remaining)[..written]
  {
    var buf := new byte[SOCKET_BUF];
    written, err := 0, None;
    ghost var all := src.remaining;
    while true
      invariant err == None && !dst.trouble && !dst.nonsense
      invariant written <= |all| && src.remaining == all[written..]
      invariant dst.accepted == old(dst.accepted) + all[..written]
      decreases |src.remaining|, src.idle
    {
      var nr, er := src.Read(buf);
      if nr > 0 {
        ghost var had := dst.accepted;
        var nw, ew := dst.Write(buf[..nr]);
        if nw < 0 || nr < nw {
          nw := 0;
          if ew == None { ew := Some(BadFrame); }
        }
        ghost var before := written;
        written := written + nw;
        assert all[before..][..nr][..nw] == all[before..before + nw];
        assert all[..before] + all[before..before + nw] == all[..written];
        if ew.Some? { return written, ew; }
        if nr != nw { return written, Some(WriteFailed); }
      }
      if er.Some? {
        if er.value != EOF { err := er; }
        assert all[..written] == all;
        return;
      }
    }
  }
}
