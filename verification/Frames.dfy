/**
  Checksummed log files: frames of a length, a checksum and a payload, appended
  one by one. What can be read back from a file cut at any byte.
 */
module Frames {
  import opened Segments
  import opened Words

  type Byte = b: int | 0 <= b < 256 witness 0

  /** Encoder, decoder and checksum of a log's entries. */
  datatype Codec<!E> = Codec(enc: E -> seq<Byte>, dec: seq<Byte> -> Option<E>, crc: seq<Byte> -> nat)

  /** Decoding undoes encoding, and checksums are 32 bits wide. */
  ghost predicate CodecOk<E(!new)>(c: Codec<E>) {
    && (forall e :: c.dec(c.enc(e)) == Some(e))
    && (forall p :: c.crc(p) < WORD)
  }

  /** The payload's length fits the 32 bits a frame has for it. */
  ghost predicate Fit<E>(c: Codec<E>, e: E) {
    |c.enc(e)| < WORD
  }

  ghost predicate AllFit<E>(c: Codec<E>, es: seq<E>) {
    forall i :: 0 <= i < |es| ==> Fit(c, es[i])
  }

  lemma FitSnoc<E>(c: Codec<E>, es: seq<E>, e: E)
    ensures AllFit(c, es + [e]) <==> AllFit(c, es) && Fit(c, e)
  {
    hide Fit;
    var all := es + [e];
    assert all[|es|] == e && forall i :: 0 <= i < |es| ==> all[i] == es[i];
  }

  // ---- 32-bit little-endian words ----

  function ToLe(n: nat): (bs: seq<Byte>)
    ensures |bs| == 4
  {
    [n % 256, n / 256 % 256, n / 0x1_0000 % 256, n / 0x100_0000 % 256]
  }

  function FromLe(bs: seq<Byte>): nat
    requires |bs| == 4
  {
    var a: nat, b: nat, c: nat, d: nat := bs[0], bs[1], bs[2], bs[3];
    a + 0x100 * b + 0x1_0000 * c + 0x100_0000 * d
  }

  /** A word keeps the low 32 bits of what was written. */
  lemma LeRoundTrip(n: nat)
    ensures FromLe(ToLe(n)) == n % WORD
  {
    Quotients(n);
    var a := n / 256;
    var b := a / 256;
    var c := b / 256;
    var r := n % 256 + 0x100 * (a % 256) + 0x1_0000 * (b % 256) + 0x100_0000 * (c % 256);
    assert FromLe(ToLe(n)) == r < WORD;
    assert n == r + WORD * (c / 256);
    hide ToLe, FromLe;
    LowWord(n, c / 256, r);
  }

  lemma Quotients(n: nat)
    ensures n / 0x1_0000 == n / 256 / 256 && n / 0x100_0000 == n / 256 / 256 / 256
  {
  }

  lemma LowWord(n: nat, q: nat, r: nat)
    requires n == r + WORD * q && r < WORD
    ensures n % WORD == r
  {
  }

  // ---- frames ----

  function Frame<E>(c: Codec<E>, e: E): seq<Byte> {
    var payload := c.enc(e);
    ToLe(|payload|) + ToLe(c.crc(payload)) + payload
  }

  /** The file after appending `es` to an empty one. */
  function Encode<E>(c: Codec<E>, es: seq<E>): seq<Byte> {
    if es == [] then [] else Encode(c, es[..|es| - 1]) + Frame(c, es[|es| - 1])
  }

  /** The first frame of `bytes` is wholly there and its checksum holds. */
  predicate Intact<E>(c: Codec<E>, bytes: seq<Byte>) {
    && 8 <= |bytes|
    && 8 + FromLe(bytes[..4]) <= |bytes|
    && c.crc(bytes[8..8 + FromLe(bytes[..4])]) == FromLe(bytes[4..8])
  }

  /** What a reader that stops at the first torn, corrupt or undecodable frame gets. */
  function Decode<E>(c: Codec<E>, bytes: seq<Byte>): seq<E>
    decreases |bytes|
  {
    if !Intact(c, bytes) then []
    else
      var end := 8 + FromLe(bytes[..4]);
      match c.dec(bytes[8..end])
      case None => []
      case Some(e) => [e] + Decode(c, bytes[end..])
  }

  /** What a reader that skips undecodable frames gets. */
  function DecodeSkipping<E>(c: Codec<E>, bytes: seq<Byte>): seq<E>
    decreases |bytes|
  {
    if !Intact(c, bytes) then []
    else
      var end := 8 + FromLe(bytes[..4]);
      var rest := DecodeSkipping(c, bytes[end..]);
      match c.dec(bytes[8..end])
      case None => rest
      case Some(e) => [e] + rest
  }

  // ---- reading back a cut file ----

  /** A frame is read as its entry, whatever follows, exactly when the payload's length fits. */
  lemma FrameIntact<E(!new)>(c: Codec<E>, e: E, rest: seq<Byte>)
    requires CodecOk(c)
    ensures var bytes := Frame(c, e) + rest;
      Fit(c, e) <==>
        && Intact(c, bytes) && 8 + FromLe(bytes[..4]) == |Frame(c, e)|
        && c.dec(bytes[8..|Frame(c, e)|]) == Some(e) && bytes[|Frame(c, e)|..] == rest
  {
    FrameEndIff(c, e);
    var bytes := Frame(c, e) + rest;
    assert bytes[..4] == Frame(c, e)[..4];
    if Fit(c, e) { FitIntact(c, e, rest); }
    hide Fit, Intact, Frame, FromLe, CodecOk;
  }

  lemma FitIntact<E(!new)>(c: Codec<E>, e: E, rest: seq<Byte>)
    requires CodecOk(c) && Fit(c, e)
    ensures var bytes := Frame(c, e) + rest;
      && Intact(c, bytes) && 8 + FromLe(bytes[..4]) == |Frame(c, e)|
      && c.dec(bytes[8..|Frame(c, e)|]) == Some(e) && bytes[|Frame(c, e)|..] == rest
  {
    var payload := c.enc(e);
    assert c.dec(payload) == Some(e) && |payload| < WORD && c.crc(payload) < WORD;
    var bytes := Frame(c, e) + rest;
    hide ToLe, FromLe;
    assert bytes[..4] == ToLe(|payload|) && bytes[4..8] == ToLe(c.crc(payload)) && bytes[8..8 + |payload|] == payload;
    LeRoundTrip(|payload|);
    LeRoundTrip(c.crc(payload));
    SmallMod(|payload|);
    SmallMod(c.crc(payload));
  }

  /** A frame's own length field says where it ends exactly when the payload's length fits it. */
  lemma FrameEndIff<E>(c: Codec<E>, e: E)
    ensures var whole := Frame(c, e); 8 + FromLe(whole[..4]) == |whole| <==> Fit(c, e)
  {
    var payload := c.enc(e);
    assert Frame(c, e)[..4] == ToLe(|payload|);
    hide ToLe, FromLe;
    LeRoundTrip(|payload|);
    if Fit(c, e) { SmallMod(|payload|); }
  }

  lemma SmallMod(n: nat)
    requires n < WORD
    ensures n % WORD == n
  {
  }

  /** A frame cut short is not intact. */
  lemma CutNotIntact<E(!new)>(c: Codec<E>, e: E, n: nat)
    requires CodecOk(c) && Fit(c, e) && n < |Frame(c, e)|
    ensures !Intact(c, Frame(c, e)[..n])
  {
    FrameIntact(c, e, []);
    var whole := Frame(c, e);
    assert whole + [] == whole;
    if 8 <= n { assert whole[..n][..4] == whole[..4]; }
  }

  lemma {:induction false} EncodeFront<E>(c: Codec<E>, es: seq<E>)
    requires es != []
    ensures Encode(c, es) == Frame(c, es[0]) + Encode(c, es[1..])
  {
    hide Frame;
    var n := |es| - 1;
    if n == 0 {
      assert es[..0] == [] && es[1..] == [];
      assert Encode(c, es[..0]) == [];
    } else {
      EncodeFront(c, es[..n]);
      assert es[..n][1..] == es[1..][..n - 1];
      assert es[1..][n - 1] == es[n];
    }
  }

  /** How many frames of `es` lie wholly before byte `cut`. */
  function WholeFrames<E>(c: Codec<E>, es: seq<E>, cut: nat): (j: nat)
    ensures j <= |es|
  {
    if es == [] || cut < |Frame(c, es[0])| then 0
    else 1 + WholeFrames(c, es[1..], cut - |Frame(c, es[0])|)
  }

  /** The frames counted end by the cut, and the next one does not. */
  lemma {:induction false} WholeFramesEnd<E>(c: Codec<E>, es: seq<E>, cut: nat)
    ensures var j := WholeFrames(c, es, cut);
      |Encode(c, es[..j])| <= cut && (j < |es| ==> cut < |Encode(c, es[..j + 1])|)
    decreases |es|
  {
    hide Frame;
    if es != [] {
      var first := Frame(c, es[0]);
      if cut < |first| {
        assert es[..1][..0] == [] && es[..1][0] == es[0];
        assert Encode(c, es[..1]) == Encode(c, []) + first;
      } else {
        WholeFramesEnd(c, es[1..], cut - |first|);
        var j := WholeFrames(c, es, cut);
        EncodeFront(c, es[..j]);
        assert es[..j][1..] == es[1..][..j - 1];
        if j < |es| {
          EncodeFront(c, es[..j + 1]);
          assert es[..j + 1][1..] == es[1..][..j];
        }
      }
    }
  }

  /** Cut at any byte, a log reads back exactly the entries whose frames are wholly there. */
  lemma {:induction false} CutDecodes<E(!new)>(c: Codec<E>, es: seq<E>, cut: nat)
    requires CodecOk(c) && AllFit(c, es) && cut <= |Encode(c, es)|
    ensures Decode(c, Encode(c, es)[..cut]) == es[..WholeFrames(c, es, cut)]
    ensures DecodeSkipping(c, Encode(c, es)[..cut]) == es[..WholeFrames(c, es, cut)]
    decreases |es|
  {
    hide Frame, Intact, CodecOk, FromLe, Fit;
    if es == [] {
      TooShort(c, Encode(c, es)[..cut]);
    } else {
      EncodeFront(c, es);
      var first, rest := Frame(c, es[0]), es[1..];
      var bytes := Encode(c, es)[..cut];
      if cut < |first| {
        assert bytes == first[..cut];
        CutNotIntact(c, es[0], cut);
      } else {
        CutDecodes(c, rest, cut - |first|);
        var tail := Encode(c, rest)[..cut - |first|];
        assert bytes == first + tail;
        FrameIntact(c, es[0], tail);
        var j := WholeFrames(c, es, cut);
        assert es[..j] == [es[0]] + rest[..j - 1];
      }
    }
  }

  lemma DecodeFirst<E(!new)>(c: Codec<E>, e: E, rest: seq<Byte>)
    requires CodecOk(c) && Fit(c, e)
    ensures Decode(c, Frame(c, e) + rest) == [e] + Decode(c, rest)
    ensures DecodeSkipping(c, Frame(c, e) + rest) == [e] + DecodeSkipping(c, rest)
  {
    hide Frame, Intact, CodecOk, FromLe, Fit;
    FrameIntact(c, e, rest);
  }

  /** Whole frames in front are read first, whatever follows them. */
  lemma {:induction false} DecodeRest<E(!new)>(c: Codec<E>, es: seq<E>, tail: seq<Byte>)
    requires CodecOk(c) && AllFit(c, es)
    ensures Decode(c, Encode(c, es) + tail) == es + Decode(c, tail)
    ensures DecodeSkipping(c, Encode(c, es) + tail) == es + DecodeSkipping(c, tail)
    decreases |es|
  {
    hide Frame, CodecOk, Fit, Decode, DecodeSkipping;
    if es == [] {
      assert Encode(c, es) + tail == tail;
      assert es + Decode(c, tail) == Decode(c, tail) && es + DecodeSkipping(c, tail) == DecodeSkipping(c, tail);
    } else {
      EncodeFront(c, es);
      var first, rest := Frame(c, es[0]), es[1..];
      DecodeRest(c, rest, tail);
      assert Encode(c, es) + tail == first + (Encode(c, rest) + tail);
      DecodeFirst(c, es[0], Encode(c, rest) + tail);
      assert [es[0]] + (rest + Decode(c, tail)) == es + Decode(c, tail);
      assert [es[0]] + (rest + DecodeSkipping(c, tail)) == es + DecodeSkipping(c, tail);
    }
  }

  // ---- appending to a file of any content ----

  /** Nothing but intact frames, decodable or not. */
  ghost predicate Whole<E>(c: Codec<E>, bytes: seq<Byte>)
    decreases |bytes|
  {
    bytes == [] || (Intact(c, bytes) && Whole(c, bytes[8 + FromLe(bytes[..4])..]))
  }

  /** Nothing but intact frames that decode. */
  ghost predicate Legible<E>(c: Codec<E>, bytes: seq<Byte>)
    decreases |bytes|
  {
    bytes == [] || (Intact(c, bytes) && var end := 8 + FromLe(bytes[..4]); c.dec(bytes[8..end]).Some? && Legible(c, bytes[end..]))
  }

  /** A first frame is the same whatever follows it. */
  lemma IntactThere<E>(c: Codec<E>, bytes: seq<Byte>, more: seq<Byte>)
    requires Intact(c, bytes)
    ensures var end := 8 + FromLe(bytes[..4]);
      && Intact(c, bytes + more) && (bytes + more)[..4] == bytes[..4] && (bytes + more)[8..end] == bytes[8..end]
      && (bytes + more)[end..] == bytes[end..] + more
  {
    hide FromLe;
    var all, end := bytes + more, 8 + FromLe(bytes[..4]);
    assert all[..4] == bytes[..4] && all[4..8] == bytes[4..8] && all[8..end] == bytes[8..end];
  }

  /** What is appended to whole frames is read as it would be alone. */
  lemma {:induction false} WholeRest<E>(c: Codec<E>, bytes: seq<Byte>, more: seq<Byte>)
    requires Whole(c, bytes)
    ensures DecodeSkipping(c, bytes + more) == DecodeSkipping(c, bytes) + DecodeSkipping(c, more)
    ensures Whole(c, bytes + more) <==> Whole(c, more)
    decreases |bytes|
  {
    hide FromLe;
    if bytes == [] {
      TooShort(c, bytes);
      assert bytes + more == more;
    } else {
      var rest := bytes[8 + FromLe(bytes[..4])..];
      hide Intact;
      IntactThere(c, bytes, more);
      WholeRest(c, rest, more);
    }
  }

  lemma {:induction false} LegibleRest<E>(c: Codec<E>, bytes: seq<Byte>, more: seq<Byte>)
    requires Legible(c, bytes)
    ensures Decode(c, bytes + more) == Decode(c, bytes) + Decode(c, more)
    decreases |bytes|
  {
    hide FromLe;
    if bytes == [] {
      TooShort(c, bytes);
      assert bytes + more == more;
    } else {
      var rest := bytes[8 + FromLe(bytes[..4])..];
      hide Intact;
      IntactThere(c, bytes, more);
      LegibleRest(c, rest, more);
    }
  }

  lemma {:induction false} EncodedWhole<E(!new)>(c: Codec<E>, es: seq<E>)
    requires CodecOk(c) && AllFit(c, es)
    ensures Whole(c, Encode(c, es)) && Legible(c, Encode(c, es)) && Decode(c, Encode(c, es)) == DecodeSkipping(c, Encode(c, es)) == es
    decreases |es|
  {
    hide Frame, CodecOk, Fit, FromLe, Intact;
    if es == [] {
      TooShort(c, Encode(c, es));
    } else {
      EncodeFront(c, es);
      EncodedWhole(c, es[1..]);
      FrameIntact(c, es[0], Encode(c, es[1..]));
    }
  }

  // ---- appending behind a torn frame ----

  /** The header a reader finds at a frame torn after `n` bytes: what is there of it, made up from what follows. */
  function Header<E>(c: Codec<E>, e: E, n: nat, more: seq<Byte>): (h: seq<Byte>)
    requires n < |Frame(c, e)| && 8 <= n + |more|
    ensures |h| == 8
  {
    if n < 8 then Frame(c, e)[..n] + more[..8 - n] else Frame(c, e)[..8]
  }

  /** The bytes of `more` that go into the torn frame. */
  function Swallowed<E>(c: Codec<E>, e: E, n: nat, more: seq<Byte>): int
    requires n < |Frame(c, e)| && 8 <= n + |more|
  {
    8 + FromLe(Header(c, e, n, more)[..4]) - n
  }

  /** The payload it is read with: the part that is there, and the rest from what follows. */
  function Mixed<E>(c: Codec<E>, e: E, n: nat, more: seq<Byte>): seq<Byte>
    requires n < |Frame(c, e)| && 8 <= n + |more| && 0 <= Swallowed(c, e, n, more) <= |more|
  {
    if n < 8 then more[8 - n..Swallowed(c, e, n, more)] else c.enc(e)[..n - 8] + more[..Swallowed(c, e, n, more)]
  }

  /** What follows makes the torn frame up and meets its checksum. */
  predicate MadeUp<E>(c: Codec<E>, e: E, n: nat, more: seq<Byte>)
    requires n < |Frame(c, e)|
  {
    && 8 <= n + |more| && 0 <= Swallowed(c, e, n, more) <= |more|
    && c.crc(Mixed(c, e, n, more)) == FromLe(Header(c, e, n, more)[4..])
  }

  lemma MadeUpIff<E>(c: Codec<E>, e: E, n: nat, more: seq<Byte>)
    requires Fit(c, e) && n < |Frame(c, e)|
    ensures var t := Frame(c, e)[..n] + more;
      && (Intact(c, t) <==> MadeUp(c, e, n, more))
      && (MadeUp(c, e, n, more) ==>
        && 8 + FromLe(t[..4]) == n + Swallowed(c, e, n, more) && t[8..8 + FromLe(t[..4])] == Mixed(c, e, n, more)
        && t[8 + FromLe(t[..4])..] == more[Swallowed(c, e, n, more)..])
  {
    var whole, t := Frame(c, e), Frame(c, e)[..n] + more;
    FrameEndIff(c, e);
    hide FromLe, ToLe;
    if 8 <= |t| {
      var h := Header(c, e, n, more);
      assert t[..8] == h;
      assert t[..4] == h[..4] && t[4..8] == h[4..];
      assert n >= 4 ==> t[..4] == whole[..4];
      var end := 8 + FromLe(t[..4]);
      assert end == n + Swallowed(c, e, n, more);
      if n >= 8 { assert whole[8..n] == c.enc(e)[..n - 8]; }
      if end <= |t| && n <= end { assert t[8..end] == Mixed(c, e, n, more); }
    }
  }

  /**
    What is appended behind a torn frame is read exactly when it makes that frame up,
    its checksum included: then the frame is read as what the mixed bytes decode to,
    and then what is left behind it. Else reading ends there, however much follows.
   */
  lemma TornReads<E>(c: Codec<E>, e: E, n: nat, more: seq<Byte>)
    requires Fit(c, e) && n < |Frame(c, e)|
    ensures var bytes := Frame(c, e)[..n] + more;
      if !MadeUp(c, e, n, more) then Decode(c, bytes) == DecodeSkipping(c, bytes) == []
      else
        var rest := more[Swallowed(c, e, n, more)..];
        match c.dec(Mixed(c, e, n, more))
        case None => Decode(c, bytes) == [] && DecodeSkipping(c, bytes) == DecodeSkipping(c, rest)
        case Some(x) => Decode(c, bytes) == [x] + Decode(c, rest) && DecodeSkipping(c, bytes) == [x] + DecodeSkipping(c, rest)
  {
    hide Frame, FromLe, Intact, Fit, Mixed, Swallowed, Header;
    MadeUpIff(c, e, n, more);
    hide MadeUp;
  }

  /**
    For a tear behind the header: nothing is gained exactly when too little follows, the
    checksum differs, or no entry comes out.
   */
  lemma {:induction false} TornHidesIff<E(!new)>(c: Codec<E>, base: seq<Byte>, e: E, n: nat, more: seq<Byte>)
    requires CodecOk(c) && Legible(c, base) && Fit(c, e) && 8 <= n < |Frame(c, e)|
    ensures var missing := |Frame(c, e)| - n;
      Decode(c, base + (Frame(c, e)[..n] + more)) == Decode(c, base) <==>
        || |more| < missing
        || c.crc(c.enc(e)[..n - 8] + more[..missing]) != c.crc(c.enc(e))
        || c.dec(c.enc(e)[..n - 8] + more[..missing]).None?
  {
    LegibleRest(c, base, Frame(c, e)[..n] + more);
    TornReads(c, e, n, more);
    HeaderThere(c, e, n, more);
    hide Decode, DecodeSkipping, Legible, Frame, FromLe, CodecOk;
  }

  lemma HeaderThere<E(!new)>(c: Codec<E>, e: E, n: nat, more: seq<Byte>)
    requires CodecOk(c) && Fit(c, e) && 8 <= n < |Frame(c, e)|
    ensures Swallowed(c, e, n, more) == |Frame(c, e)| - n && FromLe(Header(c, e, n, more)[4..]) == c.crc(c.enc(e))
  {
    var payload, whole := c.enc(e), Frame(c, e);
    assert c.crc(payload) < WORD;
    hide ToLe, FromLe;
    assert whole[..8][..4] == ToLe(|payload|) && whole[..8][4..] == ToLe(c.crc(payload));
    LeRoundTrip(|payload|);
    LeRoundTrip(c.crc(payload));
    SmallMod(|payload|);
    SmallMod(c.crc(payload));
  }

  /** A frame wholly there with a wrong checksum ends reading for good. */
  lemma CorruptStops<E>(c: Codec<E>, bytes: seq<Byte>, more: seq<Byte>)
    requires 8 <= |bytes| && 8 + FromLe(bytes[..4]) <= |bytes| && !Intact(c, bytes)
    ensures Decode(c, bytes + more) == DecodeSkipping(c, bytes + more) == []
  {
    hide FromLe;
    var all, end := bytes + more, 8 + FromLe(bytes[..4]);
    assert all[..4] == bytes[..4] && all[4..8] == bytes[4..8] && all[8..end] == bytes[8..end];
  }

  lemma TooShort<E>(c: Codec<E>, bytes: seq<Byte>)
    requires |bytes| < 8
    ensures !Intact(c, bytes)
  {
  }

  // ---- reading ----

  lemma Window(bytes: seq<Byte>, pos: nat, a: nat, b: nat)
    requires a <= b && pos + b <= |bytes|
    ensures bytes[pos..][a..b] == bytes[pos + a..pos + b] && bytes[pos..][b..] == bytes[pos + b..]
  {
  }

  /** Read a log file: every intact entry up to the first torn, corrupt or undecodable frame. */
  method Replay<E>(c: Codec<E>, bytes: seq<Byte>) returns (entries: seq<E>)
    ensures entries == Decode(c, bytes)
  {
    hide FromLe;
    entries := [];
    var pos := 0;
    assert bytes[0..] == bytes;
    while pos + 8 <= |bytes|
      invariant pos <= |bytes| && entries + Decode(c, bytes[pos..]) == Decode(c, bytes)
      decreases |bytes| - pos
    {
      ghost var left := bytes[pos..];
      Window(bytes, pos, 0, 4);
      Window(bytes, pos, 4, 8);
      var len := FromLe(bytes[pos..pos + 4]);
      var crc := FromLe(bytes[pos + 4..pos + 8]);
      var start := pos + 8;
      var end := start + len;
      if end > |bytes| {
        break;
      }
      var payload := bytes[start..end];
      Window(bytes, pos, 8, 8 + len);
      if c.crc(payload) != crc {
        break;
      }
      match c.dec(payload) {
        case Some(e) => entries := entries + [e];
        case None => break;
      }
      pos := end;
    }
  }
}
