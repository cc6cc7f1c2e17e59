/** The chunk loop of the command-line tool: read a chunk from each of two
    inputs, XOR the chunks up to the shorter one and write that out, again
    and again. */
module StreamXor {
  import opened Xor
  import opened Streams

  /** The size of the two input buffers and of the output buffer. The loop
      uses it whatever `size` its caller asks for. */
  const BufSize: nat := 32 * 1024

  /** What the two inputs' Read calls choose to do in one pass: hand over
      at most this many bytes each, or fail; a stand-in for the timing and
      the errors of real I/O. */
  datatype Want = Want(n1: nat, n2: nat, fail1: bool, fail2: bool)

  /** The state of the three streams: what each input still holds and
      whether it fails on every read, what the output holds and how much
      more it takes. */
  datatype Env = Env(in1: seq<bv8>, fault1: bool, in2: seq<bv8>, fault2: bool,
                     out: seq<bv8>, room: nat)

  /** How the loop ended. Finished is success; OutOfFuel means the plan of
      Read sizes ran out while the loop was still going. */
  datatype Outcome = ReadFailed | WriteFailed | OutOfFuel | Finished

  /** One pass up to the write: the inputs left after both reads, the
      combined chunk, and whether a read failed with something other than
      EOF. */
  datatype Pass = Pass(rest: Env, piece: seq<bv8>, readFailed: bool)

  function Snapshot(in1: Buffer, in2: Buffer, out: Buffer): Env
    reads in1, in2, out
  {
    Env(in1.data, in1.faulty, in2.data, in2.faulty, out.data, out.room)
  }

  /** How many bytes one read into a BufSize buffer takes from an input: a
      plain Read hands over what the input chooses, io.ReadFull (`fill`)
      keeps reading until the buffer is full or the input is used up. */
  function Delivered(src: seq<bv8>, faulty: bool, want: nat, fill: bool): nat
  {
    if faulty then 0
    else if fill then Min(BufSize, |src|)
    else Min(Min(BufSize, want), |src|)
  }

  /** The reads and the combine of one pass. Each input gives up whatever
      its read delivered, even the bytes beyond the shorter chunk, which
      are combined with nothing and never written. EOF is no error. */
  function OnePass(e: Env, w: Want, fill: bool): Pass
  {
    var f1, f2 := e.fault1 || w.fail1, e.fault2 || w.fail2;
    var k1 := Delivered(e.in1, f1, w.n1, fill);
    var k2 := Delivered(e.in2, f2, w.n2, fill);
    var rest := e.(in1 := e.in1[k1..], in2 := e.in2[k2..]);
    Pass(rest, XOR(e.in1[..k1], e.in2[..k2]), f1 || f2)
  }

  /** The loop over a plan of Read sizes, one pass per entry. With
      `corrected` false this is the loop as written: plain Reads, and no
      way out but an error. With it true, both inputs are read with
      io.ReadFull and the loop stops, successfully, at the first pass
      whose combined chunk is empty. A short write keeps what the output
      accepted. */
  function Run(e: Env, plan: seq<Want>, corrected: bool): (r: (Env, Outcome))
    ensures r.1 == Finished ==> corrected
    ensures e.out <= r.0.out
    decreases |plan|
  {
    if |plan| == 0 then (e, OutOfFuel)
    else
      var p := OnePass(e, plan[0], corrected);
      if p.readFailed then (p.rest, ReadFailed)
      else if corrected && |p.piece| == 0 then (p.rest, Finished)
      else if e.room < |p.piece| then (Written(e, p), WriteFailed)
      else Run(Written(e, p), plan[1..], corrected)
  }

  /** The state after a pass's write: the output keeps as much of the chunk
      as it has room for. */
  function Written(e: Env, p: Pass): Env
  {
    var k := Min(|p.piece|, e.room);
    p.rest.(out := e.out + p.piece[..k], room := e.room - k)
  }

  /** StreamXOR as written, run for at most |plan| passes. It never returns
      success. */
  method StreamXOR(in1: Buffer, in2: Buffer, out: Buffer, size: int, plan: seq<Want>)
    returns (outcome: Outcome)
    requires in1 != in2 && in1 != out && in2 != out
    modifies in1, in2, out
    ensures (Snapshot(in1, in2, out), outcome) == Run(old(Snapshot(in1, in2, out)), plan, false)
    ensures outcome != Finished
    ensures in1.room == old(in1.room) && in2.room == old(in2.room) && out.faulty == old(out.faulty)
  {
    var buf1 := new bv8[BufSize];
    var buf2 := new bv8[BufSize];
    var outbuf := new bv8[BufSize];
    var i := 0;
    while i < |plan|
      invariant 0 <= i <= |plan|
      invariant Run(old(Snapshot(in1, in2, out)), plan, false) == Run(Snapshot(in1, in2, out), plan[i..], false)
      invariant in1.room == old(in1.room) && in2.room == old(in2.room) && out.faulty == old(out.faulty)
    {
      ghost var e := Snapshot(in1, in2, out);
      var n1r, err1 := in1.Read(buf1, plan[i].n1, plan[i].fail1);
      var n2r, err2 := in2.Read(buf2, plan[i].n2, plan[i].fail2);
      ghost var p := OnePass(e, plan[i], false);
      assert p.rest == Snapshot(in1, in2, out);
      assert plan[i..][0] == plan[i] && plan[i..][1..] == plan[i + 1..];
      if (err1.Some? && err1.value != EOF) || (err2.Some? && err2.value != EOF) {
        assert p.readFailed;
        assert Run(e, plan[i..], false) == (p.rest, ReadFailed);
        return ReadFailed;
      }
      assert !p.readFailed;
      assert buf1[..n1r] == e.in1[..n1r] && buf2[..n2r] == e.in2[..n2r];
      var n := BufXOR(outbuf, buf1[..n1r], buf2[..n2r]);
      assert outbuf[..n] == p.piece;
      var _, err := out.Write(outbuf[..n]);
      assert Snapshot(in1, in2, out) == Written(e, p);
      if err.Some? {
        assert Run(e, plan[i..], false) == (Written(e, p), WriteFailed);
        return WriteFailed;
      }
      assert Run(e, plan[i..], false) == Run(Written(e, p), plan[i + 1..], false);
      i := i + 1;
    }
    return OutOfFuel;
  }

  /** Running a plan is running its first k passes and then the rest,
      provided those k passes neither failed nor finished. */
  lemma {:induction false} RunPrefix(e: Env, plan: seq<Want>, k: nat, corrected: bool)
    requires k <= |plan|
    requires Run(e, plan[..k], corrected).1 == OutOfFuel
    decreases k
    ensures Run(e, plan, corrected) == Run(Run(e, plan[..k], corrected).0, plan[k..], corrected)
  {
    if k == 0 {
      assert plan[..0] == [] && plan[0..] == plan;
    } else {
      var p := OnePass(e, plan[0], corrected);
      assert plan[..k][0] == plan[0];
      assert plan[..k][1..] == plan[1..][..k - 1];
      RunPrefix(Written(e, p), plan[1..], k - 1, corrected);
      assert plan[1..][k - 1..] == plan[k..];
    }
  }

  /** A read error in pass k (counting from 0), whether the input fails on
      every read or only this time, ends the run before that pass writes
      anything; the output keeps everything the earlier passes wrote. */
  lemma {:induction false} ReadErrorKeepsEarlierOutput(e: Env, plan: seq<Want>, k: nat, corrected: bool)
    requires k < |plan|
    requires Run(e, plan[..k], corrected).1 == OutOfFuel
    requires var s := Run(e, plan[..k], corrected).0;
      s.fault1 || s.fault2 || plan[k].fail1 || plan[k].fail2
    ensures var s := Run(e, plan[..k], corrected).0;
      var r := Run(e, plan, corrected);
      r.1 == ReadFailed && r.0.out == s.out && r.0.room == s.room
  {
    RunPrefix(e, plan, k, corrected);
    assert plan[k..][0] == plan[k];
  }

  /** Inputs 01 02 and 03 04 read a byte at a time, the first input's
      second Read failing: the run reports the read error, and the byte
      01^03 written by the first pass stays written. The second input's
      Read in that pass still took its byte. */
  lemma ReadErrorAfterOutput()
    ensures var e := Env([1, 2], false, [3, 4], false, [], 2);
      Run(e, [Want(1, 1, false, false), Want(1, 1, true, false)], false) ==
        (Env([2], false, [], false, [2], 1), ReadFailed)
  {
    var e := Env([1, 2], false, [3, 4], false, [], 2);
    var p := OnePass(e, Want(1, 1, false, false), false);
    assert e.in1[..1] == [1] && e.in2[..1] == [3];
    assert XOR([1], [3]) == [2];
    assert p.piece == [2] && p.rest.in1 == [2] && p.rest.in2 == [4];
    assert Written(e, p) == Env([2], false, [4], false, [2], 1);
  }

  /** A write in pass k that the output cannot take in full ends the run
      with WriteFailed, after the output accepted as much of the chunk as it
      had room for and on top of everything the earlier passes wrote. */
  lemma {:induction false} ShortWriteKeepsAcceptedPrefix(e: Env, plan: seq<Want>, k: nat, corrected: bool)
    requires k < |plan|
    requires Run(e, plan[..k], corrected).1 == OutOfFuel
    requires var s := Run(e, plan[..k], corrected).0;
      var p := OnePass(s, plan[k], corrected);
      !p.readFailed && s.room < |p.piece|
    ensures var s := Run(e, plan[..k], corrected).0;
      var p := OnePass(s, plan[k], corrected);
      var r := Run(e, plan, corrected);
      r.1 == WriteFailed && r.0.out == s.out + p.piece[..s.room] && r.0.room == 0 &&
      r.0.in1 == p.rest.in1 && r.0.in2 == p.rest.in2
  {
    RunPrefix(e, plan, k, corrected);
    assert plan[k..][0] == plan[k];
  }

  /** How many bytes `passes` full buffers hold. */
  function Reach(passes: nat): nat
  {
    if passes == 0 then 0 else BufSize + Reach(passes - 1)
  }

  /** A read of one pass that fills the buffers: neither input fails and,
      unless io.ReadFull does the reading (`fill`), each Read hands over as
      much as the buffer holds. */
  predicate FullRead(w: Want, fill: bool)
  {
    !w.fail1 && !w.fail2 && (fill || (w.n1 >= BufSize && w.n2 >= BufSize))
  }

  /** Every pass of the plan reads full buffers. */
  predicate FullReads(plan: seq<Want>, fill: bool)
  {
    forall j :: 0 <= j < |plan| ==> FullRead(plan[j], fill)
  }

  /** No input fails and the output takes everything the inputs can yield. */
  predicate Healthy(e: Env)
  {
    !e.fault1 && !e.fault2 && Min(|e.in1|, |e.in2|) <= e.room
  }

  /** One pass over healthy streams whose reads fill the buffers, whether
      through io.ReadFull or because the inputs hand over full buffers: its
      chunk is the next stretch of the XOR of the two inputs, the output
      takes all of it, and either both inputs moved on by a whole buffer or
      the shorter one is used up. */
  lemma {:induction false} FullPass(e: Env, w: Want, fill: bool)
    requires Healthy(e) && FullRead(w, fill)
    ensures var p := OnePass(e, w, fill);
      var next := Written(e, OnePass(e, w, fill));
      !p.readFailed &&
      XOR(e.in1, e.in2) == p.piece + XOR(next.in1, next.in2) &&
      Healthy(next) && |p.piece| <= e.room &&
      (|p.piece| == 0 <==> Min(|e.in1|, |e.in2|) == 0) &&
      (Min(|next.in1|, |next.in2|) == 0 ||
       Min(|next.in1|, |next.in2|) == Min(|e.in1|, |e.in2|) - BufSize)
  {
    var k1 := Delivered(e.in1, false, w.n1, fill);
    var k2 := Delivered(e.in2, false, w.n2, fill);
    XorChunked(e.in1, e.in2, k1, k2);
  }

  /** Over healthy streams with full reads, a pass that is not the last one
      leads on to the rest of the run from healthy streams, with one
      buffer's worth less reach needed. */
  lemma {:induction false} FullStep(e: Env, plan: seq<Want>, corrected: bool)
    requires Healthy(e) && FullReads(plan, corrected) && |plan| > 0
    requires corrected ==> Min(|e.in1|, |e.in2|) > 0
    ensures var next := Written(e, OnePass(e, plan[0], corrected));
      FullReads(plan[1..], corrected) && Healthy(next) &&
      Run(e, plan, corrected) == Run(next, plan[1..], corrected) &&
      (Min(|e.in1|, |e.in2|) <= Reach(|plan|) ==> Min(|next.in1|, |next.in2|) <= Reach(|plan| - 1))
  {
    assert Reach(|plan|) == BufSize + Reach(|plan| - 1);
    FullPass(e, plan[0], corrected);
    forall j | 0 <= j < |plan| - 1 ensures FullRead(plan[1..][j], corrected) {
      assert plan[1..][j] == plan[j + 1];
    }
  }

  /** Such a pass writes the next stretch of the XOR of the inputs: what
      is written so far plus what the remaining inputs combine to stays the
      same. */
  lemma {:induction false} FullPassOutput(e: Env, w: Want, fill: bool)
    requires Healthy(e) && FullRead(w, fill)
    ensures var next := Written(e, OnePass(e, w, fill));
      e.out + XOR(e.in1, e.in2) == next.out + XOR(next.in1, next.in2)
  {
    FullPass(e, w, fill);
    var p := OnePass(e, w, fill);
    var next := Written(e, p);
    assert p.piece[..|p.piece|] == p.piece;
    assert next.out == e.out + p.piece;
    assert e.out + (p.piece + XOR(next.in1, next.in2)) == (e.out + p.piece) + XOR(next.in1, next.in2);
  }

  /** The loop as written, over healthy streams whose Reads hand over full
      buffers and with enough passes to use up the shorter input, writes
      exactly the XOR of the two inputs, and then still does not stop. */
  lemma {:induction false} AsWrittenCombinesAll(e: Env, plan: seq<Want>)
    requires Healthy(e) && FullReads(plan, false)
    requires Min(|e.in1|, |e.in2|) <= Reach(|plan|)
    decreases |plan|
    ensures Run(e, plan, false).1 == OutOfFuel
    ensures Run(e, plan, false).0.out == e.out + XOR(e.in1, e.in2)
  {
    if |plan| == 0 {
      assert XOR(e.in1, e.in2) == [];
    } else {
      FullStep(e, plan, false);
      FullPassOutput(e, plan[0], false);
      AsWrittenCombinesAll(Written(e, OnePass(e, plan[0], false)), plan[1..]);
    }
  }

  /** With both inputs at EOF and no Read failing, the loop as written
      keeps going: every pass reads nothing, writes nothing and succeeds, so
      only running out of passes ends it. */
  lemma {:induction false} AsWrittenSpinsAtEOF(e: Env, plan: seq<Want>)
    requires e.in1 == [] && e.in2 == [] && !e.fault1 && !e.fault2
    requires FullReads(plan, true)
    decreases |plan|
    ensures Run(e, plan, false) == (e, OutOfFuel)
  {
    if |plan| != 0 {
      assert FullRead(plan[0], true);
      forall j | 0 <= j < |plan| - 1 ensures FullRead(plan[1..][j], true) {
        assert plan[1..][j] == plan[j + 1];
      }
      var p := OnePass(e, plan[0], false);
      assert p.rest == e && p.piece == [];
      assert e.(out := e.out + [], room := e.room - 0) == e;
      AsWrittenSpinsAtEOF(e, plan[1..]);
    }
  }

  /** The loop as written, when an input's Read hands over fewer bytes than
      the other's: the surplus of the longer chunk is dropped, so the two
      inputs go out of step and later bytes are paired wrongly. Inputs
      01 02 03 and 04 05 06, read as 2 and 1 bytes, then 1 and 2, give
      01^04 and 03^05 instead of 01^04, 02^05 and 03^06. */
  lemma AsWrittenShortReadsMisalign()
    ensures var e := Env([1, 2, 3], false, [4, 5, 6], false, [], 3);
      var r := Run(e, [Want(2, 1, false, false), Want(1, 2, false, false)], false);
      r.1 == OutOfFuel && r.0.out == [5, 6] && XOR(e.in1, e.in2) == [5, 7, 5]
  {
    var e := Env([1, 2, 3], false, [4, 5, 6], false, [], 3);
    var p1 := OnePass(e, Want(2, 1, false, false), false);
    assert e.in1[..2] == [1, 2] && e.in2[..1] == [4];
    assert XOR([1, 2], [4]) == [5];
    assert p1.piece == [5] && p1.rest.in1 == [3] && p1.rest.in2 == [5, 6];
    var e1 := Written(e, p1);
    assert e1 == Env([3], false, [5, 6], false, [5], 2);
    var p2 := OnePass(e1, Want(1, 2, false, false), false);
    assert XOR([3], [5, 6]) == [6];
    assert p2.piece == [6];
    assert XOR(e.in1, e.in2) == [5, 7, 5];
  }

  /** The corrected loop, over healthy streams whose reads do not fail,
      finishes within one pass more than it takes to use up the shorter
      input, whatever sizes the inputs' Reads would choose, having written
      exactly the XOR of the two inputs. */
  lemma {:induction false} CorrectedRunFinishes(e: Env, plan: seq<Want>)
    requires Healthy(e) && FullReads(plan, true) && |plan| > 0
    requires Min(|e.in1|, |e.in2|) <= Reach(|plan| - 1)
    decreases |plan|
    ensures Run(e, plan, true).1 == Finished
    ensures Run(e, plan, true).0.out == e.out + XOR(e.in1, e.in2)
  {
    if Min(|e.in1|, |e.in2|) == 0 {
      assert FullRead(plan[0], true);
      FullPass(e, plan[0], true);
      assert XOR(e.in1, e.in2) == [];
    } else {
      FullStep(e, plan, true);
      FullPassOutput(e, plan[0], true);
      CorrectedRunFinishes(Written(e, OnePass(e, plan[0], true)), plan[1..]);
    }
  }

  /** An input of 1000 bytes against one of 500: the output is the 500
      bytes of their XOR, both for the loop as written (which then keeps
      going) and for the corrected one, which stops on the next pass. */
  lemma ExhaustionBoundary(e: Env)
    requires |e.in1| == 1000 && |e.in2| == 500 && Healthy(e)
    ensures var r := Run(e, [Want(BufSize, BufSize, false, false)], false);
      r.1 == OutOfFuel && |r.0.out| == |e.out| + 500
    ensures var r := Run(e, [Want(1, 1, false, false), Want(1, 1, false, false)], true);
      r.1 == Finished && |r.0.out| == |e.out| + 500
  {
    AsWrittenCombinesAll(e, [Want(BufSize, BufSize, false, false)]);
    CorrectedRunFinishes(e, [Want(1, 1, false, false), Want(1, 1, false, false)]);
  }
}
