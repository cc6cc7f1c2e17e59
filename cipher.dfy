/** The stream wrappers of package xor: a writer that enciphers what it is
    given before passing it on, and a reader that deciphers what it pulls,
    both drawing key bytes from a key stream in lockstep with the data. */
module Cipher {
  import opened Xor
  import opened Streams

  /** KeyStream: reading key bytes failed. Underlying: the wrapped stream's
      read or write failed. Each carries the endpoint's own error. */
  datatype CipherError = KeyStream(cause: IoError) | Underlying(cause: IoError)

  /** Wraps a sink; every byte written is XOR-ed with the next key byte. */
  class Writer {
    const sink: Buffer
    const keyStream: Buffer

    /** NewWriter. Go panics on a nil writer or key stream; here neither
        can be null. */
    constructor (w: Buffer, keyStream: Buffer)
      requires w != keyStream
      ensures sink == w && this.keyStream == keyStream
    {
      sink := w;
      this.keyStream := keyStream;
    }

    /** Takes exactly |plaintext| key bytes or fails having written nothing;
        otherwise hands plaintext XOR key to the sink, whose count and error
        it returns. */
    method Write(plaintext: seq<bv8>) returns (n: nat, err: Option<CipherError>)
      requires sink != keyStream
      modifies sink, keyStream
      ensures sink.faulty == old(sink.faulty)
      ensures keyStream.room == old(keyStream.room) && keyStream.faulty == old(keyStream.faulty)
      ensures !old(keyStream.CanSupply(|plaintext|)) ==>
        n == 0 && err.Some? && err.value.KeyStream? &&
        sink.data == old(sink.data) && sink.room == old(sink.room) &&
        keyStream.data == (if old(keyStream.faulty) then old(keyStream.data) else [])
      ensures old(keyStream.CanSupply(|plaintext|)) ==>
        keyStream.data == old(keyStream.data)[|plaintext|..] &&
        n == Min(|plaintext|, old(sink.room)) &&
        sink.data == old(sink.data) + XOR(plaintext, old(keyStream.data)[..|plaintext|])[..n] &&
        sink.room == old(sink.room) - n &&
        err == (if n < |plaintext| then Some(Underlying(ShortWrite)) else None)
    {
      var key, keyErr := keyStream.ReadFull(|plaintext|);
      if keyErr.Some? {
        return 0, Some(KeyStream(keyErr.value));
      }
      var ciphertext := new bv8[|plaintext|];
      var m := BufXOR(ciphertext, plaintext, key);
      // The source's shortfall check on this count can never fire: the key
      // is exactly as long as the plaintext.
      assert m == |plaintext|;
      var sinkErr;
      n, sinkErr := sink.Write(ciphertext[..]);
      err := if sinkErr.Some? then Some(Underlying(sinkErr.value)) else None;
    }
  }

  /** Wraps a source; every byte read is XOR-ed with the next key byte. */
  class Reader {
    const source: Buffer
    const keyStream: Buffer

    /** NewReader. Go panics on a nil reader or key stream; here neither
        can be null. */
    constructor (r: Buffer, keyStream: Buffer)
      requires r != keyStream
      ensures source == r && this.keyStream == keyStream
    {
      source := r;
      this.keyStream := keyStream;
    }

    /** Fills all of `dst` or fails with 0: first exactly dst.Length
        ciphertext bytes (on failure no key byte is used), then exactly as
        many key bytes, then their XOR. */
    method Read(dst: array<bv8>) returns (n: nat, err: Option<CipherError>)
      requires source != keyStream
      modifies source, keyStream, dst
      ensures source.room == old(source.room) && source.faulty == old(source.faulty)
      ensures keyStream.room == old(keyStream.room) && keyStream.faulty == old(keyStream.faulty)
      ensures !old(source.CanSupply(dst.Length)) ==>
        n == 0 && err.Some? && err.value.Underlying? && dst[..] == old(dst[..]) &&
        source.data == (if old(source.faulty) then old(source.data) else []) &&
        keyStream.data == old(keyStream.data)
      ensures old(source.CanSupply(dst.Length)) ==>
        source.data == old(source.data)[dst.Length..]
      ensures old(source.CanSupply(dst.Length)) && !old(keyStream.CanSupply(dst.Length)) ==>
        n == 0 && err.Some? && err.value.KeyStream? && dst[..] == old(dst[..]) &&
        keyStream.data == (if old(keyStream.faulty) then old(keyStream.data) else [])
      ensures old(source.CanSupply(dst.Length)) && old(keyStream.CanSupply(dst.Length)) ==>
        n == dst.Length && err.None? &&
        keyStream.data == old(keyStream.data)[dst.Length..] &&
        dst[..] == XOR(old(source.data)[..dst.Length], old(keyStream.data)[..dst.Length])
    {
      var ciphertext, srcErr := source.ReadFull(dst.Length);
      if srcErr.Some? {
        return 0, Some(Underlying(srcErr.value));
      }
      var key, keyErr := keyStream.ReadFull(dst.Length);
      if keyErr.Some? {
        return 0, Some(KeyStream(keyErr.value));
      }
      n := BufXOR(dst, ciphertext, key);
      err := None;
    }
  }

  /** A reader and a writer over one stream that share one key stream, so
      every byte either of them processes uses up a key byte. */
  class ReadWriter {
    const writer: Writer
    const reader: Reader

    /** NewReadWriter. */
    constructor (rw: Buffer, keyStream: Buffer)
      requires rw != keyStream
      ensures writer.sink == rw && writer.keyStream == keyStream
      ensures reader.source == rw && reader.keyStream == keyStream
    {
      writer := new Writer(rw, keyStream);
      reader := new Reader(rw, keyStream);
    }
  }

  /** The package's basic I/O round trip: encipher through a Writer into an
      empty buffer with a copy of the key, then read the whole ciphertext
      back through a Reader with another copy of the same key. It gets the
      plaintext back exactly when the key is long enough. */
  method BasicIO(plaintext: seq<bv8>, key: seq<bv8>) returns (ok: bool, recovered: seq<bv8>)
    ensures ok <==> |plaintext| <= |key|
    ensures ok ==> recovered == plaintext
  {
    var writerKey := new Buffer(key, 0, false);
    var readerKey := new Buffer(key, 0, false);
    var ciphertext := new Buffer([], |plaintext|, false);
    var w := new Writer(ciphertext, writerKey);
    var _, err := w.Write(plaintext);
    if err.Some? {
      return false, [];
    }
    RoundTripBytes(plaintext, key, ciphertext.data);
    var r := new Reader(ciphertext, readerKey);
    var buf := new bv8[|plaintext|];
    var n;
    n, err := r.Read(buf);
    return err.None?, buf[..n];
  }

  /** The algebra behind BasicIO: what the Writer put into the empty
      buffer, XOR-ed with the same key bytes, is the plaintext. */
  lemma {:induction false} RoundTripBytes(p: seq<bv8>, key: seq<bv8>, written: seq<bv8>)
    requires |p| <= |key|
    requires written == [] + XOR(p, key[..|p|])[..|p|]
    ensures |written| == |p|
    ensures XOR(written[..|p|], key[..|p|]) == p
  {
    var k := key[..|p|];
    assert written == XOR(p, k);
    assert written[..|p|] == written;
    XorInvolution(p, k);
  }

  /** Lockstep across calls: two writes through one Writer use consecutive
      key bytes, so one read of the combined length, keyed by a copy of the
      same key, recovers both pieces. Chunk boundaries on the two sides need
      not agree. */
  method SplitWriteRoundTrip(p1: seq<bv8>, p2: seq<bv8>, key: seq<bv8>)
    returns (ok: bool, recovered: seq<bv8>)
    ensures ok <==> |p1| + |p2| <= |key|
    ensures ok ==> recovered == p1 + p2
  {
    var writerKey := new Buffer(key, 0, false);
    var readerKey := new Buffer(key, 0, false);
    var ciphertext := new Buffer([], |p1| + |p2|, false);
    var w := new Writer(ciphertext, writerKey);
    var _, err := w.Write(p1);
    if err.Some? {
      return false, [];
    }
    ghost var written1 := ciphertext.data;
    var _, err2 := w.Write(p2);
    if err2.Some? {
      return false, [];
    }
    SplitRoundTripBytes(p1, p2, key, written1, ciphertext.data);
    var r := new Reader(ciphertext, readerKey);
    var buf := new bv8[|p1| + |p2|];
    var n;
    n, err := r.Read(buf);
    return err.None?, buf[..n];
  }

  /** The algebra behind SplitWriteRoundTrip: two ciphertexts made with
      consecutive stretches of key, read back as one with the key from its
      start, give both plaintexts. */
  lemma {:induction false} SplitRoundTripBytes(p1: seq<bv8>, p2: seq<bv8>, key: seq<bv8>,
                                               written1: seq<bv8>, written2: seq<bv8>)
    requires |p1| + |p2| <= |key|
    requires written1 == [] + XOR(p1, key[..|p1|])[..|p1|]
    requires written2 == written1 + XOR(p2, key[|p1|..][..|p2|])[..|p2|]
    ensures |written2| == |p1| + |p2|
    ensures XOR(written2[..|p1| + |p2|], key[..|p1| + |p2|]) == p1 + p2
  {
    var k1, k2 := key[..|p1|], key[|p1|..][..|p2|];
    assert written1 == XOR(p1, k1);
    assert written2 == XOR(p1, k1) + XOR(p2, k2);
    XorAppend(p1, p2, k1, k2);
    assert key[..|p1| + |p2|] == k1 + k2;
    assert written2[..|p1| + |p2|] == written2;
    XorInvolution(p1 + p2, k1 + k2);
  }

  /** With NewReadWriter, writing |p| bytes and then reading them back takes
      the first |p| key bytes to encipher and the next |p| to decipher. The
      bytes read are the plaintext exactly when those two stretches of key
      are equal. */
  method SharedKeyWriteThenRead(p: seq<bv8>, key: seq<bv8>)
    returns (ok: bool, recovered: seq<bv8>)
    ensures ok <==> 2 * |p| <= |key|
    ensures ok ==> recovered == XOR(XOR(p, key[..|p|]), key[|p|..2 * |p|])
    ensures ok ==> (recovered == p <==> key[..|p|] == key[|p|..2 * |p|])
  {
    var keyStream := new Buffer(key, 0, false);
    var rw := new Buffer([], |p|, false);
    var rwXor := new ReadWriter(rw, keyStream);
    var _, err := rwXor.writer.Write(p);
    if err.Some? {
      return false, [];
    }
    ghost var written, keyLeft := rw.data, keyStream.data;
    var buf := new bv8[|p|];
    var n;
    n, err := rwXor.reader.Read(buf);
    if err.Some? {
      return false, [];
    }
    recovered := buf[..n];
    ok := true;
    SharedKeyBytes(p, key, written, keyLeft);
  }

  /** The algebra behind SharedKeyWriteThenRead: the ciphertext made with
      the first stretch of key, deciphered with the stretch after it. */
  lemma {:induction false} SharedKeyBytes(p: seq<bv8>, key: seq<bv8>, written: seq<bv8>, keyLeft: seq<bv8>)
    requires |p| <= |key|
    requires written == [] + XOR(p, key[..|p|])[..|p|]
    requires keyLeft == key[|p|..]
    ensures |written| == |p|
    ensures |p| <= |keyLeft| <==> 2 * |p| <= |key|
    ensures 2 * |p| <= |key| ==>
      var r := XOR(written[..|p|], keyLeft[..|p|]);
      r == XOR(XOR(p, key[..|p|]), key[|p|..2 * |p|]) &&
      (r == p <==> key[..|p|] == key[|p|..2 * |p|])
  {
    var k1 := key[..|p|];
    assert written == XOR(p, k1);
    if 2 * |p| <= |key| {
      var k2 := key[|p|..2 * |p|];
      assert keyLeft[..|p|] == k2;
      assert written[..|p|] == written;
      SameKeyIffRecovered(p, k1, k2);
    }
  }

  /** Deciphering with a stretch of key recovers the plaintext exactly when
      it is the stretch that enciphered it. */
  lemma {:induction false} SameKeyIffRecovered(p: seq<bv8>, k1: seq<bv8>, k2: seq<bv8>)
    requires |p| == |k1| == |k2|
    ensures XOR(XOR(p, k1), k2) == p <==> k1 == k2
  {
    var r := XOR(XOR(p, k1), k2);
    if k1 == k2 {
      XorInvolution(p, k1);
      assert XOR(k1, XOR(p, k1)) == p;
      assert r == p by {
        forall i | 0 <= i < |p| ensures r[i] == p[i] {
          assert (p[i] ^ k1[i]) ^ k1[i] == p[i];
        }
      }
    } else {
      var i :| 0 <= i < |p| && k1[i] != k2[i];
      assert r[i] == (p[i] ^ k1[i]) ^ k2[i];
      assert r[i] != p[i];
    }
  }
}
