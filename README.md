# xor — a verified model of a stream XOR cipher

Package `xor` combines byte streams with a key by exclusive-or. Its parts:

- `BufXOR` writes the XOR of two byte slices into a buffer. It covers as many bytes as the shorter slice has.
- `XOR` returns that combination as a fresh slice.
- A writer enciphers each `Write` with the next key bytes.
- A reader deciphers each `Read` with the next key bytes.
- A read-writer bundles a writer and a reader over one stream, sharing one key stream.
- The command-line tool's `StreamXOR` loop reads up to 32 KiB from each of two inputs with one `Read` each, XORs the two chunks up to the shorter one and writes the result, again and again.

The model has four modules:

- `Xor` (xor.dfy):
  - `XOR`, the specification function: position-wise XOR cut to the shorter input.
  - `BufXOR`, a loop over an array, proved to write exactly `XOR`.
  - `XorToNewBuffer`, the Go `XOR` function.
  - The algebra: involution, common prefix, concatenation, chunking.
- `Streams` (streams.dfy): `Buffer`, a byte-stream endpoint in the manner of `bytes.Buffer`.
  - Reads take bytes from the front of `data`; writes append to it.
  - Writes are refused beyond `room`.
  - A `faulty` source fails every read; a plain `Read` can also fail on a single call.
  - `ReadFull` models `io.ReadFull`; `Read` and `Write` model plain `io.Reader`/`io.Writer` calls.
- `Cipher` (cipher.dfy): the classes `Writer`, `Reader` and `ReadWriter`, with the Go constructors and methods.
  - Each method's contract covers every error path as well as the success path.
  - The module also holds client methods that replay the package's round trips, each backed by a pure lemma.
- `StreamXor` (stream_xor.dfy): the `StreamXOR` method, proved against the function `Run`.
  - `Run` is the loop over a finite plan saying, pass by pass, how many bytes each input's `Read` hands over and whether it fails.
  - `Run` with `corrected := true` is the loop with the two defects under "## Findings" repaired.

## Model

| member | source | states |
|---|---|---|
| Xor.BufXOR | xor.go:114-123 | returns min(len a, len b) and writes exactly `XOR(a, b)` into the front of `dst`, leaving the rest of `dst` untouched (cmd/xor/main.go:76-85 is the same code) |
| Xor.XorToNewBuffer | xor.go:103-112 | the result is as long as the shorter input and byte i is `a[i] ^ b[i]` |
| Xor.XorInvolution | xor_test.go:10-34 | for equal lengths, plaintext XOR ciphertext gives the key and key XOR ciphertext gives the plaintext |
| Xor.XorUsesCommonPrefix | xor_test.go:55-71 | a key longer than the data gives the same result as the key cut to the data's length |
| Xor.XorAppend | xor.go:103-123 | XOR distributes over concatenation when the first parts have equal length |
| Xor.XorChunked | cmd/xor/main.go:56-64 | XOR-ing chunk by chunk gives the whole XOR if both chunks are equal or the shorter one used up its input |
| Xor.BasicIOVector | xorstream_test.go:74-88 | the worked example: 01010100 ^ 10010011 = 11000111, and each byte is recovered from the other two |
| Streams.Buffer.ReadFull | xor.go:60-64 | io.ReadFull: exactly n bytes, or an error (EOF if nothing was there, UnexpectedEOF if some); a short source is drained, a request for 0 bytes always succeeds |
| Streams.Buffer.Read | cmd/xor/main.go:56-57 | a Read hands over min(buffer, offer, available) bytes, the next bytes of the source; EOF when the source is empty; a call that fails (a faulty source, or a one-off failure) gives nothing |
| Streams.Buffer.Write | cmd/xor/main.go:65-68 | a Write appends as much as the sink has room for; it returns that count and an error exactly when the count falls short |
| Cipher.Writer.constructor | xor.go:32-44 | the writer wraps the given sink and key stream |
| Cipher.Writer.Write | xor.go:58-76 | if the key stream cannot supply len(plaintext) bytes: a key-stream error, 0 written, sink untouched. Otherwise: exactly len(plaintext) key bytes used and plaintext XOR key handed to the sink, with the sink's count and error |
| Cipher.Reader.constructor | xor.go:17-30 | the reader wraps the given source and key stream |
| Cipher.Reader.Read | xor.go:83-100 | fills all of dst or returns 0. A short source is an underlying error with no key used. A short key stream is a key-stream error after the ciphertext was consumed. Success is ciphertext XOR key, one key byte per data byte |
| Cipher.ReadWriter.constructor | xor.go:10-15 | the writer and the reader both wrap the same stream and the same key stream |
| Cipher.BasicIO | xorstream_test.go:90-117 | writing through a Writer and reading back through a Reader keyed by a copy of the key succeeds exactly when the key is long enough, and then returns the plaintext |
| Cipher.RoundTripBytes | xorstream_test.go:115-117 | the bytes the Writer produced, XOR-ed with the same key bytes, are the plaintext |
| Cipher.SplitWriteRoundTrip | xor.go:58-76 | two writes use consecutive key bytes, so one read of the combined length recovers both pieces exactly when the key covers them |
| Cipher.SplitRoundTripBytes | xor.go:58-76 | two ciphertexts made with consecutive stretches of key, read back as one from the key's start, give both plaintexts |
| Cipher.SharedKeyWriteThenRead | xor.go:10-15 | through one read-writer, writing then reading p takes 2·len(p) key bytes; the read yields ciphertext XOR the second stretch of key, which is p exactly when the two stretches are equal |
| Cipher.SharedKeyBytes | xor.go:10-15 | the byte algebra of the shared key cursor behind SharedKeyWriteThenRead |
| Cipher.SameKeyIffRecovered | xor.go:83-100 | deciphering recovers the plaintext if and only if the key stretch is the one that enciphered it |
| StreamXor.Run | cmd/xor/main.go:54-71 | only the corrected loop can finish successfully; the output only grows |
| StreamXor.StreamXOR | cmd/xor/main.go:49-72 | the final stream state and outcome are those of `Run` with `corrected := false` on the initial state; it never reports success |
| StreamXor.FullPass | cmd/xor/main.go:56-65 | a pass over healthy streams whose reads fill the buffers writes the next stretch of the XOR of the inputs, and the output takes all of it. Its chunk is empty exactly when an input is used up; otherwise both inputs move on by a buffer or the shorter is used up |
| StreamXor.FullPassOutput | cmd/xor/main.go:63-68 | such a pass keeps the sum (written output + XOR of the rest) unchanged |
| StreamXor.FullStep | cmd/xor/main.go:54-69 | such a pass leads to the rest of the run from healthy streams, needing one buffer less reach |
| StreamXor.AsWrittenCombinesAll | cmd/xor/main.go:54-69 | the loop as written, with full reads, writes exactly the XOR of the inputs (the longer input's surplus is dropped), then keeps going until the plan runs out |
| StreamXor.AsWrittenSpinsAtEOF | cmd/xor/main.go:54-71 | with both inputs at EOF and no Read failing, every pass reads and writes nothing, so the loop ends only when the plan runs out |
| StreamXor.RunPrefix | cmd/xor/main.go:54-69 | a run is its first k passes followed by the rest, as long as those k passes neither failed nor finished |
| StreamXor.ReadErrorKeepsEarlierOutput | cmd/xor/main.go:56-61 | a read error in any pass (a persistent or a one-off failure of either input) ends the run with a read error before that pass writes; the output keeps everything earlier passes wrote |
| StreamXor.ReadErrorAfterOutput | cmd/xor/main.go:56-61 | 01 02 against 03 04, one byte per Read, the first input's second Read failing: the read error is reported, 01^03 stays written, and the second input still lost its byte to that pass's Read |
| StreamXor.ShortWriteKeepsAcceptedPrefix | cmd/xor/main.go:64-68 | a write the output cannot take in full ends the run with a write error; the output holds the earlier passes' bytes plus as much of this chunk as it had room for |
| StreamXor.AsWrittenShortReadsMisalign | cmd/xor/main.go:56-64 | unequal Read sizes make the loop as written pair the wrong bytes: 01 02 03 / 04 05 06 read as 2,1 then 1,2 yield 05 06, not 05 07 05 |
| StreamXor.CorrectedRunFinishes | cmd/xor/main.go:54-71 | the corrected loop over healthy streams with no failing read reports success within one pass more than the shorter input needs, whatever Read sizes are offered, having written exactly the XOR of the inputs |
| StreamXor.ExhaustionBoundary | cmd/xor/main.go:54-69 | 1000 bytes against 500: both loops write exactly 500 bytes; only the corrected one then stops |

## Left out

- `main`, `init`, flag parsing, logging, the file and standard streams, and exit codes (cmd/xor/main.go:12-43) are input/output around the loop, not part of it.
- The test scaffolding is not part of this model: `crypto/rand` keys, `mustCopyN`/`io.CopyN`, the commented-out `bufStream`, and the empty `connStream`. The round trips of `basicIO` and `bufStream` are kept as client methods over arbitrary plaintexts and keys.
- Error values are tags (`IoError`, `CipherError`), not the formatted messages of `fmt.Errorf`.
- The nil checks that panic in `NewReader`/`NewWriter` are not modelled: Dafny references here are never null.
- Cipher.Writer.constructor, Cipher.Reader.constructor and Cipher.ReadWriter.constructor require the key stream to be a different object from the wrapped stream. Aliasing a stream with its own key stream is not modelled.
- StreamXor.StreamXOR requires its three streams to be distinct objects.
- Xor.BufXOR requires `dst` to hold at least min(len a, len b) bytes. With a shorter `dst`, Go writes `len(dst)` bytes and then panics with an index out of range; that panic is not modelled. Every call in the package passes a large enough `dst`.
- Xor.BufXOR takes its inputs as values, so it does not model `dst` aliasing `a` or `b`. The Go code reads `a[i]` and `b[i]` before writing `dst[i]`, so it gives the same result under exact aliasing.
- Streams.Buffer.ReadFull: `io.ReadFull` repeats `Read` calls; here it happens in one step. A faulty source consumes nothing, although a real reader may return some bytes together with an error.
- Streams.Buffer.Read: how many bytes a Read hands over, and whether that call fails, are parameters (`want`, `fail`), standing for the reader's own behaviour. An empty source reports EOF even for a zero-length buffer (`bytes.Buffer` returns no error there); the loop always reads into 32 KiB buffers.
- StreamXor.StreamXOR: the `size` parameter is ignored, exactly as in the source, which always allocates 32 KiB buffers.
- StreamXor.Run: the loop is bounded by a finite plan of passes (one `Want` per pass), and running out of plan is the outcome `OutOfFuel`. This is how the model represents the source's unbounded loop.
- The short-plaintext check after `BufXOR` in the writer (xor.go:69-72) can never fire, because the key has exactly the plaintext's length. The model asserts this instead of carrying the dead branch.
- Concurrency: the Go values may be shared between goroutines, and nothing here models that.
- The command-line loop has no exit except an error. Its unreachable `return err` (cmd/xor/main.go:71) and its named `err` result suggest it was meant to stop once a pass combines no bytes. The model follows the code as written, and models that intent as the corrected loop below.

## Findings

Two remarks on the tests before the table. The test file calls `basicIO` failing (xorstream_test.go:14), yet `Cipher.BasicIO` proves that round trip succeeds whenever the key is as long as the plaintext. The disabled `bufStream` (xorstream_test.go:17-18, 39-47) reads back through the same read-writer with a key stream of exactly `size` bytes. `Cipher.SharedKeyWriteThenRead` shows why it fails: the write uses up the whole key, so the read finds the key stream empty.

| source | as written | input that shows it | evidently intended | confidence | as-written member | corrected member |
|---|---|---|---|---|---|---|
| cmd/xor/main.go:54-71 | `for { … }` has no exit except a read or write error; `return err` on line 71 is unreachable | both inputs at EOF: every pass reads 0 bytes, writes 0 bytes and loops again, forever | stop and return nil once a pass combines no bytes | high (not executed) | StreamXor.AsWrittenSpinsAtEOF | StreamXor.CorrectedRunFinishes |
| cmd/xor/main.go:56-64 | each input is read with one plain `Read`, which may return fewer bytes than the buffer holds; the longer chunk's surplus is dropped | inputs 01 02 03 and 04 05 06 whose Reads deliver 2 and 1 bytes, then 1 and 2: output 05 06 instead of 05 07 05 | fill both buffers with `io.ReadFull`, so the inputs stay in step | high (not executed) | StreamXor.AsWrittenShortReadsMisalign | StreamXor.CorrectedRunFinishes |
