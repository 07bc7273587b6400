/** mz_inflate: the decompressor behind a 32 KiB ring, with output handed out in
    pieces of any size (mk/linux/mojosetup/miniz.h:543-671). */
module MzInflate {
  import opened Bits
  import opened Rfc1951
  import opened Rfc1950
  import opened OutWindow
  import opened InflateFacts
  import opened Tinfl

  const DICT_SIZE: nat := 32768

  // flush values
  const MZ_NO_FLUSH := 0
  const MZ_PARTIAL_FLUSH := 1
  const MZ_SYNC_FLUSH := 2
  const MZ_FINISH := 4

  datatype Code = Ok | StreamEnd | StreamError | DataError | BufError

  /** status < 0 */
  predicate Negative(s: Status) {
    s == Tinfl.Failure || s == AdlerMismatch || s == BadParam
  }

  predicate FlushOk(flush: int) {
    flush == MZ_NO_FLUSH || flush == MZ_PARTIAL_FLUSH || flush == MZ_SYNC_FLUSH || flush == MZ_FINISH
  }

  /** The ring holds the output so far, and what is left to hand out at ofs. */
  ghost predicate RingHolds(ring: seq<Byte>, out: seq<Byte>, delivered: seq<Byte>, ofs: nat, avail: nat) {
    && |ring| == DICT_SIZE && ofs < DICT_SIZE && ofs + avail <= DICT_SIZE
    && out == delivered + ring[ofs..ofs + avail] && Ring(ring, DICT_SIZE, out, ofs + avail)
  }

  predicate AtCursor(at: nat, cur: nat) {
    at == cur || (at == 0 && cur == DICT_SIZE)
  }

  lemma RingDelivers(ring: seq<Byte>, out: seq<Byte>, delivered: seq<Byte>, ofs: nat, avail: nat, n: nat, cur: nat)
    requires RingHolds(ring, out, delivered, ofs, avail) && n <= avail
    ensures RingHolds(ring, out, delivered + ring[ofs..ofs + n], (ofs + n) % DICT_SIZE, avail - n)
    ensures AtCursor(ofs + avail, cur) ==> AtCursor((ofs + n) % DICT_SIZE + avail - n, cur)
  {
    hide Ring;
    var d := delivered + ring[ofs..ofs + n];
    assert ring[ofs..ofs + avail] == ring[ofs..ofs + n] + ring[ofs + n..ofs + avail];
    assert out == d + ring[ofs + n..ofs + avail];
    if ofs + n == DICT_SIZE {
      RingWraps(ring, DICT_SIZE, out);
      assert ring[0..0] == ring[ofs + n..ofs + avail] == [];
    }
  }

  datatype View = View(buf: seq<Byte>, next: nat, avail: nat, input: seq<Byte>, taken: nat, delivered: seq<Byte>)

  /** Input taken from the front, output appended to what is delivered and, at
      next, to the buffer, which is otherwise unchanged. */
  ghost predicate Serves(v: View, v': View) {
    && v.next <= v'.next <= |v'.buf| == |v.buf| && v'.next + v'.avail == v.next + v.avail
    && v'.delivered == v.delivered + v'.buf[v.next..v'.next]
    && v'.buf[..v.next] == v.buf[..v.next] && v'.buf[v'.next..] == v.buf[v'.next..]
    && v.taken <= v'.taken <= v.taken + |v.input| && v'.input == v.input[v'.taken - v.taken..]
  }

  lemma ServesOut(buf: seq<Byte>, buf': seq<Byte>, next: nat, avail: nat, delivered: seq<Byte>, n: nat)
    requires |buf'| == |buf| && next + n <= |buf| && n <= avail
    requires forall i :: 0 <= i < |buf| && !(next <= i < next + n) ==> buf'[i] == buf[i]
    ensures Serves(View(buf, next, avail, [], 0, delivered),
                   View(buf', next + n, avail - n, [], 0, delivered + buf'[next..next + n]))
  {
    assert buf'[..next] == buf[..next];
    assert buf'[next + n..] == buf[next + n..];
    var none: seq<Byte> := [];
    assert none == none[0..];
  }

  lemma ServesMore(v: View, w: View, input: seq<Byte>, taken: nat)
    requires Serves(v, w) && v.input == w.input == []
    ensures Serves(v.(input := input, taken := taken), w.(input := input, taken := taken))
  {
    assert input == input[0..];
  }

  /** The output side of a view. */
  function Bare(v: View): View {
    v.(input := [], taken := 0)
  }

  lemma ServesBare(v: View, w: View)
    requires Serves(v, w)
    ensures Serves(Bare(v), Bare(w))
  {
    var none: seq<Byte> := [];
    assert none == none[0..];
  }

  lemma ServesCounts(v: View, w: View)
    requires Serves(v, w)
    ensures v.taken <= w.taken && w.taken + |w.input| == v.taken + |v.input| && |w.delivered| - w.next == |v.delivered| - v.next
    ensures v.next <= w.next && w.next + w.avail == v.next + v.avail
  {
  }

  lemma ServesThen(u: View, v: View, w: View)
    requires Serves(u, v) && Serves(v, w)
    ensures Serves(u, w)
  {
    assert w.buf[u.next..w.next] == w.buf[u.next..v.next] + w.buf[v.next..w.next];
    assert w.buf[u.next..v.next] == w.buf[..v.next][u.next..] == v.buf[u.next..v.next];
    assert w.buf[..u.next] == w.buf[..v.next][..u.next];
    assert w.buf[w.next..] == v.buf[v.next..][w.next - v.next..];
    assert u.buf[w.next..] == u.buf[v.next..][w.next - v.next..];
  }

  class Stream {
    const decomp: Decompressor
    const dict: array<Byte>
    // whether the first call has MZ_FINISH, which puts the decompressor in its
    // non-wrapping mode
    const oneShot: bool
    var dictOfs: nat
    var dictAvail: nat
    var firstCall: bool
    var hasFlushed: bool
    var lastStatus: Status
    // next_in and avail_in; next_out and avail_out; total_out
    var input: seq<Byte>
    var outBuf: array<Byte>
    var nextOut: nat
    var availOut: nat
    var totalOut: nat
    // all bytes handed out so far
    ghost var delivered: seq<Byte>

    ghost function Src(): seq<Byte> { decomp.r.src }

    /** How much of the stream has been taken. */
    ghost function Taken(): nat
      reads decomp.r
    {
      decomp.r.taken
    }

    /** What the stream decodes to. */
    ghost function Target(): Outcome { decomp.target }

    /** The ring holds the output; what is not yet handed out is at dictOfs. */
    ghost predicate RingOk()
      reads this, dict, decomp.w
    {
      && RingHolds(dict[..], decomp.w.out, delivered, dictOfs, dictAvail)
      && (decomp.w.out == [] || (decomp.w.size == DICT_SIZE && AtCursor(dictOfs + dictAvail, decomp.w.cur)))
    }

    /** The input is the next piece of the stream; the output region is the
        caller's own memory. */
    ghost predicate CallerOk()
      reads this, decomp.r, decomp.w
    {
      && Taken() + |input| <= |Src()| && input == Src()[Taken()..Taken() + |input|]
      && nextOut + availOut <= outBuf.Length && totalOut == |delivered|
      && outBuf != dict && outBuf !in decomp.Repr() && (!oneShot ==> outBuf != decomp.w.buf)
    }

    ghost predicate StatusOk()
      reads this, decomp, decomp.r, decomp.w
    {
      match lastStatus
      case Complete => Target().Done? && decomp.w.out == Target().out && Target().end <= 8 * Taken()
      case AdlerMismatch => Target().Mismatch?
      case Failure => oneShot || Target().Rejected?
      case BadParam => false
      case NeedsMoreInput => 8 * Taken() < NeedOf(Target(), 8 * |Src()|)
      case HasMoreOutput => Target() != Outside && |decomp.w.out| < |Target().out|
    }

    /** The stream's own objects. */
    ghost predicate Apart()
      reads this, decomp.w
    {
      && decomp.nonWrap == oneShot && decomp.compute
      && dict.Length == DICT_SIZE && dict !in decomp.Repr() && this as object !in decomp.Repr() && decomp.w.buf !in decomp.Repr()
    }

    /** All a call may change, but for the caller's memory. */
    ghost function Frame(): set<object>
      reads this, decomp.w
    {
      decomp.Repr() + {this as object, dict, decomp.w.buf}
    }

    /** What holds between calls: nothing at all has happened yet, or the ring
        is in order; a one-shot stream has at most one call that works. */
    ghost predicate Valid()
      reads this, dict, decomp, decomp.r, decomp.w, decomp.w.buf, decomp.sum, decomp.own, decomp.litTable, decomp.distTable, decomp.clTable
    {
      && Apart() && decomp.Inv() && decomp.Summed() && CallerOk() && StatusOk() && Extends(decomp.w.out, Target())
      && (if oneShot then delivered == decomp.w.out && (firstCall ==> delivered == [] && Taken() == 0 && lastStatus == NeedsMoreInput)
          else RingOk())
    }

    constructor (ghost src: seq<Byte>, zlib: bool, oneShot: bool, wide: bool, wideBits: bool)
      requires Whole(src, zlib, if oneShot then NO_WRAP else DICT_SIZE) != Outside
      ensures Valid() && firstCall && !hasFlushed && lastStatus == NeedsMoreInput
      ensures delivered == [] && Taken() == 0 && Src() == src && input == [] && availOut == 0
      ensures Target() == Whole(src, zlib, if oneShot then NO_WRAP else DICT_SIZE) && this.oneShot == oneShot
      ensures fresh(Frame()) && fresh(outBuf)
    {
      hide Whole, Decompressor.Inv, Decompressor.Summed, Decompressor.Repr, Ring, Stream.Valid;
      WholeEnd(src, zlib, if oneShot then NO_WRAP else DICT_SIZE);
      var ring := new Byte[DICT_SIZE](_ => 0);
      var none := new Byte[0];
      var d := new Decompressor(src, zlib, oneShot, true, wide, wideBits);
      decomp, dict, outBuf := d, ring, none;
      this.oneShot, dictOfs, dictAvail, firstCall, hasFlushed, lastStatus := oneShot, 0, 0, true, false, NeedsMoreInput;
      input, nextOut, availOut, totalOut, delivered := [], 0, 0, 0, [];
      new;
      decomp.BufferApart();
      assert src[0..0] == [];
      ThisApart();
      NewIsValid();
    }

    lemma ThisApart()
      requires decomp.Inv()
      ensures this as object !in decomp.Repr()
    {
      hide Decompressor.InState;
    }

    lemma NewIsValid()
      requires Apart() && decomp.Inv() && decomp.Summed() && CallerOk() && lastStatus == NeedsMoreInput
      requires decomp.w.out == delivered == [] && Taken() == 0 && dictOfs == dictAvail == 0
      requires NeedOf(Target(), 8 * |Src()|) > 0
      ensures Valid()
    {
      hide Decompressor.Inv, Decompressor.Summed, Decompressor.Repr, Stream.CallerOk;
      NothingOut(Target());
      assert dict[0..0] == [];
    }

    lemma NothingOut(o: Outcome)
      ensures Extends([], o)
    {
    }

    /** The caller's next piece of input. */
    method SetInput(input: seq<Byte>)
      requires Valid() && Taken() + |input| <= |Src()| && input == Src()[Taken()..Taken() + |input|]
      modifies this`input
      ensures Valid() && this.input == input
    {
      hide Decompressor.Inv, Decompressor.Summed, Ring, Extends;
      this.input := input;
    }

    /** The caller's next piece of memory for output. */
    method SetOutput(buf: array<Byte>, next: nat, avail: nat)
      requires Valid() && next + avail <= buf.Length
      requires buf != dict && buf !in decomp.Repr() && (!oneShot ==> buf != decomp.w.buf)
      modifies this`outBuf, this`nextOut, this`availOut
      ensures Valid() && outBuf == buf && nextOut == next && availOut == avail
    {
      hide Decompressor.Inv, Decompressor.Summed, Ring, Extends;
      outBuf, nextOut, availOut := buf, next, avail;
    }

    /** memcpy to next_out */
    method CopyOut(n: nat)
      requires dict != outBuf && dictOfs + n <= dict.Length && nextOut + n <= outBuf.Length
      modifies outBuf
      ensures outBuf[nextOut..nextOut + n] == dict[dictOfs..dictOfs + n] && dict[..] == old(dict[..])
      ensures forall i :: 0 <= i < outBuf.Length && !(nextOut <= i < nextOut + n) ==> outBuf[i] == old(outBuf[i])
    {
      forall i | 0 <= i < n { outBuf[nextOut + i] := dict[dictOfs + i]; }
    }

    /** Hands out what fits (lines 628-631 and 648-651). */
    method Deliver()
      requires RingOk() && CallerOk() && Apart()
      modifies this`nextOut, this`availOut, this`totalOut, this`dictAvail, this`dictOfs, this`delivered, outBuf
      ensures RingOk() && CallerOk() && Apart()
      ensures var n := if old(dictAvail) < old(availOut) then old(dictAvail) else old(availOut);
        nextOut == old(nextOut) + n && availOut == old(availOut) - n && dictAvail == old(dictAvail) - n
      ensures Serves(old(View(outBuf[..], nextOut, availOut, [], 0, delivered)), View(outBuf[..], nextOut, availOut, [], 0, delivered))
    {
      hide Serves, RingHolds, AtCursor, Decompressor.Repr;
      InRing();
      var n := if dictAvail < availOut then dictAvail else availOut;
      CopyOut(n);
      RingDelivers(dict[..], decomp.w.out, delivered, dictOfs, dictAvail, n, decomp.w.cur);
      delivered := delivered + dict[dictOfs..dictOfs + n];
      nextOut, availOut, totalOut := nextOut + n, availOut - n, totalOut + n;
      dictAvail, dictOfs := dictAvail - n, (dictOfs + n) % DICT_SIZE;
      ServesOut(old(outBuf[..]), outBuf[..], old(nextOut), old(availOut), old(delivered), n);
    }

    lemma InRing()
      requires RingOk()
      ensures dictOfs + dictAvail <= dict.Length == DICT_SIZE
    {
    }

    /** What a call does for its caller: input is taken from the front, output
        is appended, and both are accounted for. */
    twostate predicate Served()
      reads this, decomp.r, outBuf
    {
      outBuf == old(outBuf) && Serves(old(Seen()), Seen())
    }

    /** What the caller sees. */
    ghost function Seen(): View
      reads this, decomp.r, outBuf
    {
      View(outBuf[..], nextOut, availOut, input, Taken(), delivered)
    }

    lemma ServesItself()
      requires nextOut <= outBuf.Length
      ensures Serves(Bare(Seen()), Bare(Seen()))
    {
    }

    lemma DictIsPower()
      ensures !decomp.BadRegion(DICT_SIZE)
    {
      assert decomp.PowerOfTwo(256);
      assert decomp.PowerOfTwo(4096);
    }

    lemma Reenters()
      requires Valid() && !oneShot && dictAvail == 0
      ensures decomp.Continues(dict, dictOfs, DICT_SIZE)
    {
    }

    /** A step of the loop up to the decompressor's return (lines 636-646). */
    method Refill(more: bool) returns (status: Status)
      requires Valid() && !oneShot && dictAvail == 0
      requires !more ==> Taken() + |input| == |Src()|
      modifies this`input, this`lastStatus, this`dictAvail
      modifies dict, decomp, decomp.r, decomp.w, decomp.sum, decomp.own, decomp.litTable, decomp.distTable, decomp.clTable
      ensures Valid() && status == lastStatus
      ensures Served() && decomp.w.buf == dict
      ensures |decomp.w.out| == |old(decomp.w.out)| + dictAvail
      ensures status == NeedsMoreInput ==> more && input == [] && Taken() < |Src()|
      ensures status == HasMoreOutput ==> dictAvail > 0 && Target() != Outside && |decomp.w.out| < |Target().out|
    {
      hide Decompressor.Inv, Decompressor.Summed, Decompressor.Outcomes, Decompressor.Repr, Ring, RingHolds, Extends,
        Stream.Valid, Stream.RingOk, Stream.Apart, Stream.CallerOk, Stream.StatusOk;
      OwnApart();
      InBounds();
      status := Redecode(more);
      AfterCall();
      TakesOnly();
    }

    /** The decompressor goes on where it stopped in the ring. */
    method Redecode(more: bool) returns (status: Status)
      requires Valid() && !oneShot && dictAvail == 0
      requires !more ==> Taken() + |input| == |Src()|
      modifies this`input, this`lastStatus, this`dictAvail
      modifies dict, decomp, decomp.r, decomp.w, decomp.sum, decomp.own, decomp.litTable, decomp.distTable, decomp.clTable
      ensures Apart() && CallerOk() && decomp.Inv() && decomp.Summed() && RingOk() && StatusOk()
      ensures Extends(decomp.w.out, Target()) && status == lastStatus && decomp.w.buf == dict
      ensures old(Taken()) <= Taken() <= old(Taken()) + |old(input)| && input == old(input)[Taken() - old(Taken())..]
      ensures |decomp.w.out| == |old(decomp.w.out)| + dictAvail
      ensures status == NeedsMoreInput ==> more && input == [] && Taken() < |Src()|
      ensures status == HasMoreOutput ==> dictAvail > 0 && Target() != Outside && |decomp.w.out| < |Target().out|
    {
      hide Decompressor.Inv, Decompressor.Summed, Decompressor.Continues, Decompressor.BadRegion,
        Decompressor.Outcomes, Decompressor.Repr, Ring, Extends, Stream.Valid;
      Before();
      OwnApart();
      status := Reenter(more);
      InputOn();
      assert RingHolds(dict[..], decomp.w.out, delivered, dictOfs, dictAvail);
      Status();
    }

    /** The call itself. */
    method Reenter(more: bool) returns (status: Status)
      requires Valid() && !oneShot && dictAvail == 0
      requires !more ==> Taken() + |input| == |Src()|
      modifies this`input, this`lastStatus, this`dictAvail
      modifies dict, decomp, decomp.r, decomp.w, decomp.sum, decomp.own, decomp.litTable, decomp.distTable, decomp.clTable
      ensures decomp.Inv() && decomp.Summed() && decomp.Outcomes(status) && status == lastStatus && status != BadParam
      ensures old(Taken()) <= Taken() <= old(Taken()) + |old(input)| && input == old(input)[Taken() - old(Taken())..]
      ensures dictOfs + dictAvail <= DICT_SIZE == dict.Length && Extends(decomp.w.out, Target())
      ensures decomp.w.out == old(decomp.w.out) + dict[dictOfs..dictOfs + dictAvail]
      ensures Ring(dict[..], DICT_SIZE, decomp.w.out, dictOfs + dictAvail)
      ensures decomp.w.cur == dictOfs + dictAvail && decomp.w.size == DICT_SIZE && decomp.w.buf == dict
      ensures status == NeedsMoreInput ==> more && input == [] && Taken() < |Src()|
      ensures status == HasMoreOutput ==> dictAvail == DICT_SIZE - dictOfs
    {
      hide Decompressor.Inv, Decompressor.Summed, Decompressor.Continues, Decompressor.BadRegion,
        Decompressor.Outcomes, Decompressor.Repr, Ring, Extends, Stream.Valid;
      Reenters();
      DictIsPower();
      Before();
      OwnApart();
      var inUsed, outMade;
      status, inUsed, outMade := decomp.Decompress(input, dict, dictOfs, DICT_SIZE, more);
      lastStatus, input, dictAvail := status, input[inUsed..], outMade;
    }

    /** The input that is left is the next piece of the stream. */
    twostate lemma InputOn()
      requires old(Taken()) <= Taken() <= old(Taken()) + |old(input)| && input == old(input)[Taken() - old(Taken())..]
      requires old(Taken()) + |old(input)| <= |Src()| && old(input) == Src()[old(Taken())..old(Taken()) + |old(input)|]
      ensures Taken() + |input| <= |Src()| && input == Src()[Taken()..Taken() + |input|]
    {
    }

    lemma Before()
      requires Valid() && !oneShot && dictAvail == 0
      ensures Apart() && CallerOk() && decomp.Inv() && decomp.Summed() && decomp.w.out == delivered && dictOfs < DICT_SIZE
    {
      hide Decompressor.Inv, Decompressor.Summed, Ring, Extends;
    }

    lemma OwnApart()
      requires Valid()
      ensures this as object !in decomp.own && dict !in decomp.own && outBuf !in decomp.own
      ensures !oneShot ==> outBuf != dict && outBuf != decomp.w.buf
    {
      hide Decompressor.Inv, Decompressor.Summed, Ring, Extends;
    }

    lemma Status()
      requires decomp.Outcomes(lastStatus) && lastStatus != BadParam
      ensures StatusOk()
      ensures lastStatus == HasMoreOutput ==> Target() != Outside && |decomp.w.out| < |Target().out|
    {
    }

    twostate lemma TakesOnly()
      requires outBuf == old(outBuf) && outBuf[..] == old(outBuf[..]) && nextOut == old(nextOut) && availOut == old(availOut)
      requires delivered == old(delivered) && old(nextOut) <= outBuf.Length
      requires old(Taken()) <= Taken() <= old(Taken()) + |old(input)| && input == old(input)[Taken() - old(Taken())..]
      ensures Served()
    {
    }

    lemma AfterCall()
      requires Apart() && CallerOk() && decomp.Inv() && decomp.Summed() && RingOk() && StatusOk() && Extends(decomp.w.out, Target())
      requires !oneShot
      ensures Valid()
    {
      hide Decompressor.Inv, Decompressor.Summed, Ring, Extends, Decompressor.Repr;
    }

    /** Deliver, between two calls of the decompressor. */
    method HandOut()
      requires Valid() && !oneShot
      modifies this`nextOut, this`availOut, this`totalOut, this`dictAvail, this`dictOfs, this`delivered, outBuf
      ensures Valid() && Served() && input == old(input) && |decomp.w.out| == |delivered| + dictAvail
      ensures dictAvail == 0 || availOut == 0
      ensures old(dictAvail) > 0 && old(availOut) > 0 ==> |delivered| > |old(delivered)|
    {
      hide Decompressor.Inv, Decompressor.Summed, Decompressor.Repr, Ring, Extends, Serves;
      OwnApart();
      Deliver();
      ServesMore(old(View(outBuf[..], nextOut, availOut, [], 0, delivered)), View(outBuf[..], nextOut, availOut, [], 0, delivered), input, Taken());
    }

    /** One round of the loop, up to its tests. */
    method Turn(more: bool) returns (status: Status)
      requires Valid() && !oneShot && dictAvail == 0
      requires !more ==> Taken() + |input| == |Src()|
      modifies this`input, this`lastStatus, this`nextOut, this`availOut, this`totalOut, this`dictAvail, this`dictOfs, this`delivered
      modifies outBuf, dict, decomp, decomp.r, decomp.w, decomp.sum, decomp.own, decomp.litTable, decomp.distTable, decomp.clTable
      ensures Valid() && Served() && status == lastStatus && decomp.w.buf == dict
      ensures |decomp.w.out| == |delivered| + dictAvail >= |old(decomp.w.out)|
      ensures dictAvail == 0 || availOut == 0
      ensures old(Taken()) <= Taken() && Taken() + |input| == old(Taken() + |input|) && |delivered| >= |old(delivered)|
      ensures |decomp.w.out| > |old(decomp.w.out)| && old(availOut) > 0 ==> |delivered| > |old(delivered)|
      ensures status == NeedsMoreInput ==> more && input == [] && Taken() < |Src()|
      ensures status == HasMoreOutput ==> |decomp.w.out| > |old(decomp.w.out)| && |decomp.w.out| < |Target().out|
    {
      hide Decompressor.Inv, Decompressor.Summed, Decompressor.Repr, Ring, Extends, Stream.Valid, Stream.CallerOk,
        Serves;
      Before();
      OwnApart();
      status := Refill(more);
      ghost var v := Seen();
      HandOut();
      ServesThen(old(Seen()), v, Seen());
      ServesCounts(old(Seen()), Seen());
    }

    /** The loop (lines 634-670): the decompressor is entered only with the ring
        drained, and as often as it fills the ring. */
    method Pump(finish: bool) returns (code: Code)
      requires Valid() && !oneShot && dictAvail == 0
      requires finish ==> Taken() + |input| == |Src()|
      modifies this`input, this`lastStatus, this`nextOut, this`availOut, this`totalOut, this`dictAvail, this`dictOfs, this`delivered
      modifies outBuf, dict, decomp, decomp.r, decomp.w, decomp.sum, decomp.own, decomp.litTable, decomp.distTable, decomp.clTable
      ensures Valid() && Served() && code != StreamError && decomp.w.buf in {dict, old(decomp.w.buf)}
      ensures code == DataError <==> Negative(lastStatus)
      ensures code == StreamEnd <==> lastStatus == Complete && dictAvail == 0
      ensures code == BufError && !finish ==> old(input) == [] && Taken() < |Src()|
      ensures code == BufError && finish ==> availOut == 0 && Target() != Outside && |delivered| < |Target().out|
      ensures code == Ok ==> !finish
      ensures code == Ok && old(availOut) > 0 ==> |delivered| > |old(delivered)| || Taken() > old(Taken())
    {
      hide Decompressor.Inv, Decompressor.Summed, Decompressor.Repr, Ring, Extends, Stream.Valid, Stream.CallerOk,
        Serves, Stream.Seen, Stream.Target, Stream.Src;
      OwnApart();
      ServesNothing();
      var origAvailIn := |input|;
      ghost var started := false;
      while true
        invariant Valid() && Served() && dictAvail == 0 && (finish ==> Taken() + |input| == |Src()|)
        invariant decomp.w.buf in {dict, old(decomp.w.buf)}
        invariant started ==> |delivered| > |old(delivered)|
        invariant !started ==> input == old(input) && availOut == old(availOut) && Taken() == old(Taken()) && delivered == old(delivered)
        decreases Room()
      {
        ghost var v := Seen();
        InBounds();
        var status := Turn(!finish);
        ServesThen(old(Seen()), v, Seen());
        InBounds();
        if Negative(status) {
          return DataError;
        } else if status == NeedsMoreInput && origAvailIn == 0 {
          return BufError;
        } else if finish {
          if status == Complete {
            return if dictAvail > 0 then BufError else StreamEnd;
          } else if availOut == 0 {
            return BufError;
          }
        } else if status == Complete || input == [] || availOut == 0 || dictAvail > 0 {
          return if status == Complete && dictAvail == 0 then StreamEnd else Ok;
        }
        started := true;
      }
    }

    twostate lemma ServesNothing()
      requires Valid() && Seen() == old(Seen()) && outBuf == old(outBuf)
      ensures Served()
    {
      hide Decompressor.Inv, Decompressor.Summed, Ring, Extends;
    }

    /** How much output is still to come from the decompressor. */
    ghost function Room(): int
      reads this, decomp.w
    {
      if Target() == Outside then 0 else |Target().out| - |decomp.w.out|
    }

    lemma InBounds()
      requires Valid()
      ensures !oneShot ==> |decomp.w.out| == |delivered| + dictAvail
      ensures !oneShot && dictAvail == 0 ==> decomp.w.out == delivered
      ensures !oneShot && lastStatus == Tinfl.Failure ==> Target().Rejected?
      ensures lastStatus == AdlerMismatch ==> Target().Mismatch?
      ensures totalOut == |delivered| && Taken() + |input| <= |Src()|
      ensures lastStatus != BadParam && nextOut + availOut <= outBuf.Length
      ensures Target() != Outside && |decomp.w.out| <= |Target().out|
      ensures lastStatus == Complete ==> Target().Done? && decomp.w.out == Target().out
    {
      hide Decompressor.InState, Decompressor.Summed, Decompressor.Repr, Ring;
    }

    /** All is delivered when the ring is empty at the end of the stream. */
    lemma AllOut()
      requires Valid() && !oneShot
      ensures lastStatus == Complete ==> (dictAvail == 0 <==> delivered == Target().out) && Target().end <= 8 * Taken()
      ensures lastStatus != Complete ==> !(Target().Done? && delivered == Target().out && Target().end <= 8 * Taken())
    {
      hide Decompressor.Inv, Decompressor.Summed, Ring, Extends;
    }

    /** The first call with MZ_FINISH: everything at once, into memory for all of
        the output (lines 603-624). */
    method AllAtOnce() returns (code: Code)
      requires Valid() && oneShot && delivered == [] && Taken() == 0 && nextOut == 0 && availOut < 0x1_0000_0000
      requires !firstCall && |input| == |Src()|
      modifies this`input, this`lastStatus, this`nextOut, this`availOut, this`totalOut, this`delivered
      modifies outBuf, decomp, decomp.r, decomp.w, decomp.sum, decomp.own, decomp.litTable, decomp.distTable, decomp.clTable
      ensures Valid() && code in {StreamEnd, DataError, BufError}
      ensures outBuf == old(outBuf) && nextOut + availOut == old(availOut) && delivered == outBuf[..nextOut]
      ensures Taken() <= |old(input)| && input == old(input)[Taken()..]
      ensures code == StreamEnd <==> lastStatus == Complete
      ensures code == StreamEnd ==> Target().Done? && delivered == Target().out
      ensures code == DataError ==> Negative(lastStatus) && (Target().Rejected? || Target().Mismatch?) && delivered == Target().out
      ensures code == BufError ==> Negative(lastStatus) && availOut == 0 && |Target().out| > old(availOut) == |delivered|
      ensures code == BufError <==> |Target().out| > old(availOut)
      ensures code == StreamEnd <==> Target().Done? && |Target().out| <= old(availOut)
    {
      hide Decompressor.Inv, Decompressor.Summed, Decompressor.Continues, Decompressor.BadRegion,
        Decompressor.Outcomes, Decompressor.Repr, Ring, Extends, Stream.Valid, Serves;
      OwnApart();
      var status := TakeAll();
      assert |delivered| == nextOut <= old(availOut);
      if status == Complete {
        code := StreamEnd;
      } else if Negative(status) {
        code := DataError;
      } else {
        lastStatus := Tinfl.Failure;
        code := BufError;
      }
      AllIsValid();
    }

    method TakeAll() returns (status: Tinfl.Status)
      requires Valid() && oneShot && delivered == [] && Taken() == 0 && nextOut == 0 && availOut < 0x1_0000_0000
      requires !firstCall && |input| == |Src()|
      modifies this`input, this`lastStatus, this`nextOut, this`availOut, this`totalOut, this`delivered
      modifies outBuf, decomp, decomp.r, decomp.w, decomp.sum, decomp.own, decomp.litTable, decomp.distTable, decomp.clTable
      ensures Apart() && CallerOk() && decomp.Inv() && decomp.Summed() && Extends(decomp.w.out, Target())
      ensures StatusOk() && status == lastStatus && status != BadParam && delivered == decomp.w.out
      ensures outBuf == old(outBuf) && nextOut + availOut == old(availOut) && delivered == outBuf[..nextOut]
      ensures Taken() <= |old(input)| && input == old(input)[Taken()..]
      ensures status == Complete ==> Target().Done? && delivered == Target().out
      ensures Negative(status) ==> (Target().Rejected? || Target().Mismatch?) && delivered == Target().out
      ensures status == HasMoreOutput ==> availOut == 0 && Target() != Outside && |Target().out| > |delivered|
      ensures status != NeedsMoreInput && this as object !in decomp.own
    {
      hide Decompressor.Inv, Decompressor.Summed, Decompressor.Continues, Decompressor.BadRegion,
        Decompressor.Outcomes, Decompressor.Repr, Ring, Extends, Stream.Valid, Serves;
      OwnApart();
      StartsHere();
      var inUsed, outMade;
      status, inUsed, outMade := decomp.Decompress(input, outBuf, 0, availOut, false);
      lastStatus := status;
      Status();
      Fits();
      input := input[inUsed..];
      delivered := outBuf[0..outMade];
      nextOut, availOut, totalOut := outMade, availOut - outMade, outMade;
    }

    lemma StartsHere()
      requires Valid() && oneShot && delivered == [] && Taken() == 0 && nextOut == 0 && availOut < 0x1_0000_0000
      ensures Apart() && CallerOk() && decomp.Inv() && decomp.Summed() && decomp.w.out == delivered == []
      ensures decomp.Continues(outBuf, nextOut, nextOut + availOut) && !decomp.BadRegion(nextOut + availOut) && Taken() == 0
    {
      hide Decompressor.Inv, Decompressor.Summed, Extends;
    }

    lemma Fits()
      requires decomp.Outcomes(lastStatus)
      ensures lastStatus == Complete ==> decomp.w.out == Target().out
      ensures lastStatus == Tinfl.Failure ==> Target().Rejected? && decomp.w.out == Target().out
      ensures lastStatus == AdlerMismatch ==> Target().Mismatch? && decomp.w.out == Target().out
    {
    }

    lemma AllIsValid()
      requires Apart() && CallerOk() && decomp.Inv() && decomp.Summed() && StatusOk() && Extends(decomp.w.out, Target())
      requires oneShot && !firstCall && delivered == decomp.w.out
      ensures Valid()
    {
      hide Decompressor.Inv, Decompressor.Summed, Ring, Extends, Decompressor.Repr;
    }

    /** Every byte handed out is a byte of the decoded stream, in its place. */
    lemma DeliveredIsPrefix()
      requires Valid()
      ensures Target() != Outside && delivered <= Target().out
    {
      hide Decompressor.InState, Decompressor.Summed, Decompressor.Repr, Ring;
      assert delivered <= decomp.w.out;
    }

    method FirstCall() returns (first: bool)
      requires Valid()
      modifies this`firstCall
      ensures Valid() && first == old(firstCall) && !firstCall && Seen() == old(Seen())
      ensures oneShot && first ==> delivered == [] && Taken() == 0 && lastStatus == NeedsMoreInput
    {
      hide Decompressor.Inv, Decompressor.Summed, Decompressor.Repr, Ring, Extends;
      OwnApart();
      first := firstCall;
      firstCall := false;
    }

    method NoteFlush(finish: bool)
      requires Valid()
      modifies this`hasFlushed
      ensures Valid() && hasFlushed == (old(hasFlushed) || finish) && Seen() == old(Seen())
    {
      hide Decompressor.Inv, Decompressor.Summed, Decompressor.Repr, Ring, Extends;
      OwnApart();
      hasFlushed := hasFlushed || finish;
    }

    /** A call that is not an error of its caller's and finds no bad status. */
    ghost predicate Serving(flush: int)
      reads this
    {
      FlushOk(flush) && !Negative(lastStatus) && (hasFlushed ==> flush == MZ_FINISH)
    }

    /** mz_inflate. A first call with MZ_FINISH is one that has the whole stream;
        a later one has all that is left. */
    method Inflate(flush: int) returns (code: Code)
      requires Valid() && availOut < 0x1_0000_0000
      requires flush == MZ_FINISH ==> Taken() + |input| == |Src()|
      requires FlushOk(flush) && firstCall ==> (oneShot <==> flush == MZ_FINISH) && (oneShot ==> nextOut == 0)
      requires oneShot && !firstCall ==> Negative(lastStatus) || (hasFlushed && flush != MZ_FINISH)
      modifies this`input, this`lastStatus, this`nextOut, this`availOut, this`totalOut, this`dictAvail, this`dictOfs, this`delivered
      modifies this`firstCall, this`hasFlushed
      modifies outBuf, dict, decomp, decomp.r, decomp.w, decomp.sum, decomp.own, decomp.litTable, decomp.distTable, decomp.clTable
      ensures Valid() && outBuf == old(outBuf)
      ensures !oneShot ==> Served() && decomp.w.buf in {dict, old(decomp.w.buf)}
      ensures hasFlushed == (old(hasFlushed) || (flush == MZ_FINISH && !Negative(old(lastStatus))))
      ensures oneShot && code == StreamEnd ==> delivered == outBuf[..nextOut]
      ensures old(Serving(flush)) && !oneShot ==>
        (code == StreamEnd <==> Target().Done? && delivered == Target().out && Target().end <= 8 * Taken())
      ensures old(Serving(flush)) && !oneShot ==> (code == StreamEnd <==> lastStatus == Complete && delivered == Target().out)
      ensures old(Serving(flush)) && !oneShot ==> (code == DataError <==> Negative(lastStatus))
      ensures old(Serving(flush)) && oneShot ==> (code == BufError <==> |Target().out| > old(availOut))
      ensures old(Serving(flush)) && oneShot ==> (code == StreamEnd <==> Target().Done? && |Target().out| <= old(availOut))
      ensures old(Serving(flush)) && oneShot ==> code in {StreamEnd, DataError, BufError}
      ensures old(Serving(flush)) && oneShot && code == DataError ==> delivered == outBuf[..nextOut] == Target().out
      ensures code == StreamError <==> flush !in {0, 1, 2, 4} || (!Negative(old(lastStatus)) && old(hasFlushed) && flush != 4)
      ensures code == StreamEnd ==> Target().Done? && delivered == Target().out
      ensures code == DataError ==> Negative(lastStatus) && (oneShot || Target().Rejected? || Target().Mismatch?)
      ensures code == BufError && flush != MZ_FINISH ==> old(input) == [] && Taken() < |Src()|
      ensures code == BufError && flush == MZ_FINISH ==> availOut == 0 && |delivered| < |Target().out|
      ensures code == Ok && old(availOut) > 0 ==> |delivered| > |old(delivered)| || Taken() > old(Taken())
      ensures Negative(old(lastStatus)) && FlushOk(flush) ==> code == DataError
      ensures oneShot && old(firstCall) && Target().Done? && |Target().out| <= old(availOut) && FlushOk(flush) ==> code == StreamEnd
    {
      hide Decompressor.Inv, Decompressor.Summed, Decompressor.Repr, Ring, Extends, Stream.Valid, Serves, Stream.Seen,
        Stream.Target, Stream.Src;
      OwnApart();
      ServesNothing();
      DeliveredIsPrefix();
      var fl := if flush == MZ_PARTIAL_FLUSH then MZ_SYNC_FLUSH else flush;
      if fl != MZ_NO_FLUSH && fl != MZ_SYNC_FLUSH && fl != MZ_FINISH {
        return StreamError;
      }
      var first := FirstCall();
      ServesNothing();
      if Negative(lastStatus) {
        InBounds();
        return DataError;
      }
      if hasFlushed && fl != MZ_FINISH {
        return StreamError;
      }
      NoteFlush(fl == MZ_FINISH);
      if fl == MZ_FINISH && first {
        code := AllAtOnce();
      } else if dictAvail > 0 {
        HandOut();
        InBounds();
        AllOut();
        code := if lastStatus == Complete && dictAvail == 0 then StreamEnd else Ok;
      } else {
        code := Pump(fl == MZ_FINISH);
        InBounds();
        AllOut();
      }
    }
  }
}
