/** The byte streams the cipher wraps, reduced to what the code relies on:
    Go's io.Reader and io.Writer contracts and io.ReadFull. A Buffer is one
    such endpoint, in the manner of bytes.Buffer: reads take bytes from the
    front of `data`, writes append to its back. */
module Streams {
  import opened Xor

  datatype Option<T> = None | Some(value: T)

  /** The errors an endpoint reports. EOF: nothing left to read.
      UnexpectedEOF: io.ReadFull found some, but fewer bytes than it needed.
      Fault: any other read error. ShortWrite: the sink took fewer bytes
      than it was offered. */
  datatype IoError = EOF | UnexpectedEOF | Fault | ShortWrite

  class Buffer {
    /** Bytes still to be read; a write appends here. */
    var data: seq<bv8>
    /** How many more bytes a write accepts before it fails. */
    var room: nat
    /** When set, every read that asks for bytes fails with Fault. */
    var faulty: bool

    constructor (data: seq<bv8>, room: nat, faulty: bool)
      ensures this.data == data && this.room == room && this.faulty == faulty
    {
      this.data := data;
      this.room := room;
      this.faulty := faulty;
    }

    /** Whether io.ReadFull can take `n` bytes from this source. A request
        for nothing succeeds without touching the source at all. */
    predicate CanSupply(n: nat)
      reads this
    {
      n == 0 || (!faulty && n <= |data|)
    }

    /** io.ReadFull: exactly `n` bytes or an error. A short source is drained
        (its bytes are read and lost); a faulty one gives nothing. */
    method ReadFull(n: nat) returns (chunk: seq<bv8>, err: Option<IoError>)
      modifies this
      ensures room == old(room) && faulty == old(faulty)
      ensures err.None? <==> old(CanSupply(n))
      ensures err.None? ==> chunk == old(data)[..n] && data == old(data)[n..]
      ensures err.Some? && old(faulty) ==> err.value == Fault && data == old(data)
      ensures err.Some? && !old(faulty) ==>
        data == [] && chunk == old(data) &&
        err.value == (if old(data) == [] then EOF else UnexpectedEOF)
    {
      if n == 0 {
        chunk, err := [], None;
      } else if faulty {
        chunk, err := [], Some(Fault);
      } else if n <= |data| {
        chunk, err := data[..n], None;
        data := data[n..];
      } else {
        chunk := data;
        err := Some(if data == [] then EOF else UnexpectedEOF);
        data := [];
      }
    }

    /** A plain io.Reader Read into `p`. How many bytes the source hands
        over and whether this one call fails are its own business, here the
        parameters `want` and `fail`. It never hands over more than `p`
        holds or than it has; a faulty source fails every call. An empty
        source reports EOF. */
    method Read(p: array<bv8>, want: nat, fail: bool) returns (n: nat, err: Option<IoError>)
      modifies this, p
      ensures room == old(room) && faulty == old(faulty)
      ensures old(faulty) || fail ==> n == 0 && err == Some(Fault) && data == old(data)
      ensures !old(faulty) && !fail ==>
        n == Min(Min(p.Length, want), |old(data)|) &&
        p[..n] == old(data)[..n] && data == old(data)[n..] &&
        err == (if old(data) == [] then Some(EOF) else None)
      ensures p[n..] == old(p[n..])
    {
      if faulty || fail {
        return 0, Some(Fault);
      }
      n := Min(Min(p.Length, want), |data|);
      forall i | 0 <= i < n {
        p[i] := data[i];
      }
      err := if data == [] then Some(EOF) else None;
      data := data[n..];
    }

    /** An io.Writer Write: the sink keeps as much of `p` as it has room
        for and reports an error when that is not all of it. */
    method Write(p: seq<bv8>) returns (n: nat, err: Option<IoError>)
      modifies this
      ensures faulty == old(faulty)
      ensures n == Min(|p|, old(room))
      ensures data == old(data) + p[..n] && room == old(room) - n
      ensures err == (if n < |p| then Some(ShortWrite) else None)
    {
      n := Min(|p|, room);
      data := data + p[..n];
      room := room - n;
      err := if n < |p| then Some(ShortWrite) else None;
    }
  }
}
