/** How step trees and messages are laid out in bytes, and read back. */
module Blobs {
  import opened Options
  import opened MWSteps

  // ---------------------------------------------------------------- integers

  function Pow256(k: nat): nat { if k == 0 then 1 else 256 * Pow256(k - 1) }

  /** The k low bytes of a number, lowest or highest byte first. */
  function Num(big: bool, n: nat, k: nat): (s: seq<byte>)
    ensures |s| == k
  {
    if k == 0 then []
    else if big then Num(big, n / 256, k - 1) + [n % 256]
    else [n % 256] + Num(big, n / 256, k - 1)
  }

  function FromNum(big: bool, s: seq<byte>): nat {
    if s == [] then 0
    else if big then 256 * FromNum(big, s[..|s| - 1]) + s[|s| - 1]
    else s[0] + 256 * FromNum(big, s[1..])
  }

  lemma {:induction false} NumRoundTrip(big: bool, n: nat, k: nat)
    requires n < Pow256(k)
    ensures FromNum(big, Num(big, n, k)) == n
  {
    if k > 0 {
      NumRoundTrip(big, n / 256, k - 1);
      var s := Num(big, n, k);
      assert if big then s[..k - 1] == Num(big, n / 256, k - 1) else s[1..] == Num(big, n / 256, k - 1);
    }
  }

  /** Byte i of a number: the lowest first, or last. */
  lemma {:induction false} NumBytes(big: bool, n: nat, k: nat, i: nat)
    requires i < k
    ensures Pow256(if big then k - 1 - i else i) > 0
    ensures Num(big, n, k)[i] == n / Pow256(if big then k - 1 - i else i) % 256
  {
    var e := if big then k - 1 - i else i;
    PowPositive(e);
    if e > 0 {
      NumBytes(big, n / 256, k - 1, if big then i else i - 1);
      DivTwice(n, Pow256(e - 1));
    }
  }

  lemma {:induction false} PowPositive(k: nat)
    ensures Pow256(k) > 0
  {
    if k > 0 { PowPositive(k - 1); }
  }

  lemma DivTwice(n: nat, p: nat)
    requires p > 0
    ensures 256 * p > 0 && n / 256 / p == n / (256 * p)
  {
    var q, r := n / 256, n % 256;
    var a, b := q / p, q % p;
    assert n == 256 * (a * p + b) + r == a * (256 * p) + (256 * b + r);
    assert 256 * b + r < 256 * p;
    DivUnique(n, 256 * p, a, 256 * b + r);
  }

  lemma DivUnique(n: nat, d: nat, q: nat, r: nat)
    requires r < d && n == q * d + r
    ensures n / d == q
  {
    var q2, r2 := n / d, n % d;
    assert n == q2 * d + r2;
    if q2 < q {
      Spread(q2, q, d);
    } else if q2 > q {
      Spread(q, q2, d);
    }
  }

  lemma {:induction false} Spread(a: nat, b: nat, d: nat)
    requires a < b
    ensures b * d >= a * d + d
  {
    if a + 1 < b { Spread(a, b - 1, d); }
  }

  lemma Pow256Values()
    ensures Pow256(4) == 0x1_0000_0000 && Pow256(8) == 0x1_0000_0000_0000_0000
  {
    assert Pow256(2) == 0x1_0000 && Pow256(4) == 256 * 256 * Pow256(2);
    assert Pow256(6) == 256 * 256 * Pow256(4) && Pow256(8) == 256 * 256 * Pow256(6);
  }

  /** 32-bit two's complement. */
  function FromInt(i: int): nat
    requires -0x8000_0000 <= i < 0x8000_0000
  {
    if i < 0 then i + 0x1_0000_0000 else i
  }

  function ToInt(n: nat): int { if n < 0x8000_0000 then n else n - 0x1_0000_0000 }

  // ---------------------------------------------------------------- objects

  const MAGIC: seq<byte> := [0xbe, 0xbe, 0xbe, 0xbe]
  const EOB: seq<byte> := [0xbf, 0xbf, 0xbf, 0xbf]
  const HEADER := 16

  /** The class name of a multi step: MWMultiStep. */
  const MULTI: seq<byte> := [77, 87, 77, 117, 108, 116, 105, 83, 116, 101, 112]

  function Format(big: bool): byte { if big then 1 else 0 }

  function Header(big: bool, level: byte, total: nat, name: seq<byte>): (s: seq<byte>)
    requires |name| < 256
    ensures |s| == HEADER + |name|
  {
    Num(big, total, 8) + MAGIC + [1, Format(big), level, |name|] + name
  }

  /** An object from putStart to putEnd. */
  function Object(big: bool, level: byte, name: seq<byte>, body: seq<byte>): (s: seq<byte>)
    requires |name| < 256
    ensures |s| == HEADER + |name| + |body| + 4
  {
    Header(big, level, HEADER + |name| + |body| + 4, name) + body + EOB
  }

  /** What getNextType finds. */
  datatype Start = Start(total: nat, version: byte, name: seq<byte>)

  /** Reading the header of an object inside level objects; None where the source throws. */
  function ParseHeader(big: bool, level: nat, s: seq<byte>): (r: Option<Start>)
    ensures r.Some? ==> |s| >= HEADER + |r.value.name|
  {
    if |s| < HEADER || s[8..12] != MAGIC || s[14] > level || s[13] != Format(big) || |s| < HEADER + s[15] then None
    else Some(Start(FromNum(big, s[..8]), s[12], s[HEADER..HEADER + s[15]]))
  }

  /** A header is accepted exactly if it has the mark, the right byte order, a level not above that of the reader, and
      the bytes of its name. */
  lemma HeaderAccepted(big: bool, level: nat, s: seq<byte>)
    ensures ParseHeader(big, level, s).Some? <==>
      |s| >= 16 && s[8] == s[9] == s[10] == s[11] == 0xbe && s[13] == (if big then 1 else 0) && s[14] <= level &&
      |s| - 16 >= s[15]
  {
    if |s| >= 12 { assert s[8..12] == [s[8], s[9], s[10], s[11]]; }
  }

  lemma ParseHeaderOf(big: bool, level: byte, total: nat, name: seq<byte>, tail: seq<byte>)
    requires |name| < 256 && total < Pow256(8)
    ensures ParseHeader(big, level, Header(big, level, total, name) + tail) == Some(Start(total, 1, name))
  {
    var s := Header(big, level, total, name) + tail;
    NumRoundTrip(big, total, 8);
    assert s[..8] == Num(big, total, 8);
    assert s[8..12] == MAGIC;
    assert s[HEADER..HEADER + |name|] == name;
  }

  /** The end of an object of which read bytes have been read: the end mark and the length check of getEnd. */
  predicate EndsWell(start: Start, s: seq<byte>, read: nat) {
    read + 4 <= |s| && s[read..read + 4] == EOB && (start.total == read + 4 || start.total == 0)
  }

  // ---------------------------------------------------------------- step trees

  /** The leaf classes registered with MWStepFactory, and whether they are local steps. */
  type Registry = map<seq<byte>, bool>

  /** What toBlob can write and fromBlob knows: names and nesting levels fit in a byte, counts in 32 bits. */
  predicate Fits(reg: Registry, level: nat, t: MWStep)
    decreases t
  {
    && level < 256
    && match t
       case LocalStep(leaf) => LeafFits(reg, leaf) && reg[leaf.className]
       case GlobalStep(leaf) => LeafFits(reg, leaf) && !reg[leaf.className]
       case MultiStep(steps) =>
         |steps| < 0x1_0000_0000 && forall i :: 0 <= i < |steps| ==> Fits(reg, level + 1, steps[i])
  }

  predicate LeafFits(reg: Registry, leaf: Leaf) {
    leaf.className in reg && leaf.className != MULTI && |leaf.className| < 256
  }

  function LeafBody(big: bool, leaf: Leaf): seq<byte> { Num(big, |leaf.data|, 8) + leaf.data }

  function Encode(reg: Registry, big: bool, level: nat, t: MWStep): seq<byte>
    requires Fits(reg, level, t)
    decreases t
  {
    match t
    case LocalStep(leaf) => Object(big, level, leaf.className, LeafBody(big, leaf))
    case GlobalStep(leaf) => Object(big, level, leaf.className, LeafBody(big, leaf))
    case MultiStep(steps) =>
      Object(big, level, MULTI, Num(big, |steps|, 4) + EncodeAll(reg, big, level + 1, steps))
  }

  function EncodeAll(reg: Registry, big: bool, level: nat, steps: seq<MWStep>): seq<byte>
    requires forall i :: 0 <= i < |steps| ==> Fits(reg, level, steps[i])
    decreases steps
  {
    if steps == [] then [] else Encode(reg, big, level, steps[0]) + EncodeAll(reg, big, level, steps[1..])
  }

  datatype Parsed<T> = Parsed(value: T, size: nat)

  /** Reading one step: getNextType, MWStepFactory::create and fromBlob; None where the source throws. */
  function Decode(reg: Registry, big: bool, level: nat, s: seq<byte>): (r: Option<Parsed<MWStep>>)
    ensures r.Some? ==> 0 < r.value.size <= |s|
    decreases |s|, 0
  {
    match ParseHeader(big, level, s)
    case None => None
    case Some(start) =>
      var at := HEADER + |start.name|;
      if start.name == MULTI then
        if start.version != 1 || |s| < at + 4 then None
        else match DecodeMany(reg, big, level + 1, FromNum(big, s[at..at + 4]), s[at + 4..])
          case None => None
          case Some(p) =>
            var read := at + 4 + p.size;
            if EndsWell(start, s, read) then Some(Parsed(MultiStep(p.value), read + 4)) else None
      else if start.name !in reg || |s| < at + 8 then None
      else
        var read := at + 8 + FromNum(big, s[at..at + 8]);
        if EndsWell(start, s, read) then
          var leaf := Leaf(start.name, s[at + 8..read]);
          Some(Parsed(if reg[start.name] then LocalStep(leaf) else GlobalStep(leaf), read + 4))
        else None
  }

  function DecodeMany(reg: Registry, big: bool, level: nat, n: nat, s: seq<byte>): (r: Option<Parsed<seq<MWStep>>>)
    ensures r.Some? ==> r.value.size <= |s|
    decreases |s|, 1
  {
    if n == 0 then Some(Parsed([], 0))
    else match Decode(reg, big, level, s)
      case None => None
      case Some(p) =>
        match DecodeMany(reg, big, level, n - 1, s[p.size..])
        case None => None
        case Some(q) => Some(Parsed([p.value] + q.value, p.size + q.size))
  }

  /** The parts of an object followed by anything. */
  lemma ObjectParts(big: bool, level: byte, name: seq<byte>, body: seq<byte>, tail: seq<byte>)
    requires |name| < 256 && |Object(big, level, name, body)| < Pow256(8)
    ensures var s := Object(big, level, name, body) + tail;
      var start := Start(|Object(big, level, name, body)|, 1, name);
      && ParseHeader(big, level, s) == Some(start)
      && EndsWell(start, s, HEADER + |name| + |body|)
      && s[HEADER + |name|..] == body + (EOB + tail)
  {
    var total := HEADER + |name| + |body| + 4;
    var h := Header(big, level, total, name);
    var s := Object(big, level, name, body) + tail;
    assert s == h + (body + (EOB + tail));
    ParseHeaderOf(big, level, total, name, body + (EOB + tail));
    assert s[HEADER + |name| + |body|..HEADER + |name| + |body| + 4] == EOB;
  }

  lemma NumAt(big: bool, n: nat, k: nat, rest: seq<byte>)
    requires n < Pow256(k)
    ensures |Num(big, n, k) + rest| >= k && FromNum(big, (Num(big, n, k) + rest)[..k]) == n
    ensures (Num(big, n, k) + rest)[k..] == rest
  {
    assert (Num(big, n, k) + rest)[..k] == Num(big, n, k);
    NumRoundTrip(big, n, k);
  }

  /** Any step tree is read back as it was written, whatever follows it and whatever the byte order. */
  lemma {:induction false} DecodeEncode(reg: Registry, big: bool, level: nat, t: MWStep, tail: seq<byte>)
    requires Fits(reg, level, t) && |Encode(reg, big, level, t)| < Pow256(8)
    ensures Decode(reg, big, level, Encode(reg, big, level, t) + tail)
         == Some(Parsed(t, |Encode(reg, big, level, t)|))
    decreases t
  {
    hide Decode, DecodeMany;
    Pow256Values();
    match t
    case LocalStep(leaf) => DecodeLeaf(reg, big, level, leaf, tail);
    case GlobalStep(leaf) => DecodeLeaf(reg, big, level, leaf, tail);
    case MultiStep(steps) =>
      DecodeEncodeAll(reg, big, level + 1, steps, EOB + tail);
      DecodeMulti(reg, big, level, steps, EncodeAll(reg, big, level + 1, steps), tail);
  }

  lemma DecodeMulti(reg: Registry, big: bool, level: byte, steps: seq<MWStep>, all: seq<byte>, tail: seq<byte>)
    requires |steps| < Pow256(4) && |Object(big, level, MULTI, Num(big, |steps|, 4) + all)| < Pow256(8)
    requires DecodeMany(reg, big, level + 1, |steps|, all + (EOB + tail)) == Some(Parsed(steps, |all|))
    ensures var o := Object(big, level, MULTI, Num(big, |steps|, 4) + all);
      Decode(reg, big, level, o + tail) == Some(Parsed(MultiStep(steps), |o|))
  {
    hide DecodeMany, FromNum, Num, EndsWell, ParseHeader, Pow256;
    var n, at := |steps|, HEADER + |MULTI|;
    var s := Object(big, level, MULTI, Num(big, n, 4) + all) + tail;
    ObjectParts(big, level, MULTI, Num(big, n, 4) + all, tail);
    assert Num(big, n, 4) + all + (EOB + tail) == Num(big, n, 4) + (all + (EOB + tail));
    NumAt(big, n, 4, all + (EOB + tail));
    assert s[at..at + 4] == s[at..][..4] && s[at + 4..] == s[at..][4..];
  }

  lemma DecodeLeaf(reg: Registry, big: bool, level: byte, leaf: Leaf, tail: seq<byte>)
    requires LeafFits(reg, leaf)
    requires |Object(big, level, leaf.className, LeafBody(big, leaf))| < Pow256(8)
    ensures var o := Object(big, level, leaf.className, LeafBody(big, leaf));
      Decode(reg, big, level, o + tail)
      == Some(Parsed(if reg[leaf.className] then LocalStep(leaf) else GlobalStep(leaf), |o|))
  {
    hide DecodeMany, FromNum, Num, EndsWell, ParseHeader, Pow256;
    var n, at := |leaf.data|, HEADER + |leaf.className|;
    var s := Object(big, level, leaf.className, LeafBody(big, leaf)) + tail;
    ObjectParts(big, level, leaf.className, LeafBody(big, leaf), tail);
    assert LeafBody(big, leaf) + (EOB + tail) == Num(big, n, 8) + (leaf.data + (EOB + tail));
    NumAt(big, n, 8, leaf.data + (EOB + tail));
    assert s[at..at + 8] == s[at..][..8] && s[at + 8..at + 8 + n] == s[at..][8..][..n] == leaf.data;
  }

  lemma {:induction false} DecodeEncodeAll(reg: Registry, big: bool, level: nat, steps: seq<MWStep>, tail: seq<byte>)
    requires forall i :: 0 <= i < |steps| ==> Fits(reg, level, steps[i])
    requires |EncodeAll(reg, big, level, steps)| < Pow256(8)
    ensures DecodeMany(reg, big, level, |steps|, EncodeAll(reg, big, level, steps) + tail)
         == Some(Parsed(steps, |EncodeAll(reg, big, level, steps)|))
    decreases steps
  {
    hide Encode, Decode, DecodeMany, Fits, EncodeAll, Pow256;
    if steps == [] {
      NoSteps(reg, big, level, tail);
    } else {
      var first, rest := Encode(reg, big, level, steps[0]), EncodeAll(reg, big, level, steps[1..]);
      EncodeAllCons(reg, big, level, steps);
      DecodeEncode(reg, big, level, steps[0], rest + tail);
      DecodeEncodeAll(reg, big, level, steps[1..], tail);
      assert EncodeAll(reg, big, level, steps) + tail == first + (rest + tail);
      assert (first + (rest + tail))[|first|..] == rest + tail;
      DecodeManyCons(reg, big, level, |steps|, first + (rest + tail));
      assert [steps[0]] + steps[1..] == steps;
    }
  }

  lemma NoSteps(reg: Registry, big: bool, level: nat, tail: seq<byte>)
    ensures EncodeAll(reg, big, level, []) == [] && DecodeMany(reg, big, level, 0, [] + tail) == Some(Parsed([], 0))
  {
  }

  lemma EncodeAllCons(reg: Registry, big: bool, level: nat, steps: seq<MWStep>)
    requires steps != [] && forall i :: 0 <= i < |steps| ==> Fits(reg, level, steps[i])
    ensures EncodeAll(reg, big, level, steps)
         == Encode(reg, big, level, steps[0]) + EncodeAll(reg, big, level, steps[1..])
  {
  }

  lemma DecodeManyCons(reg: Registry, big: bool, level: nat, n: nat, s: seq<byte>)
    requires n > 0 && Decode(reg, big, level, s).Some?
    ensures var p := Decode(reg, big, level, s).value;
      DecodeMany(reg, big, level, n, s) ==
        match DecodeMany(reg, big, level, n - 1, s[p.size..])
        case None => None
        case Some(q) => Some(Parsed([p.value] + q.value, p.size + q.size))
  {
  }

  lemma {:induction false} EncodeAllAppend(reg: Registry, big: bool, level: nat, steps: seq<MWStep>, t: MWStep)
    requires (forall i :: 0 <= i < |steps| ==> Fits(reg, level, steps[i])) && Fits(reg, level, t)
    ensures EncodeAll(reg, big, level, steps + [t]) == EncodeAll(reg, big, level, steps) + Encode(reg, big, level, t)
    decreases steps
  {
    hide Encode, Fits;
    if steps == [] {
      assert EncodeAll(reg, big, level, []) == [];
    } else {
      assert (steps + [t])[1..] == steps[1..] + [t];
      EncodeAllAppend(reg, big, level, steps[1..], t);
    }
  }

  // ---------------------------------------------------------------- messages

  const MW: seq<byte> := [109, 119]
  const TIMES := 20

  datatype Envelope = Envelope(oper: int, streamId: int, workerId: int, times: seq<byte>)

  predicate Int32(i: int) { -0x8000_0000 <= i < 0x8000_0000 }

  predicate EnvelopeFits(e: Envelope) { Int32(e.oper) && Int32(e.streamId) && Int32(e.workerId) && |e.times| == TIMES }

  function EnvelopeBytes(big: bool, e: Envelope): (s: seq<byte>)
    requires EnvelopeFits(e)
    ensures |s| == 12 + TIMES
  {
    Num(big, FromInt(e.oper), 4) + Num(big, FromInt(e.streamId), 4) + Num(big, FromInt(e.workerId), 4) + e.times
  }

  /** A message as MWBlobOut makes it. */
  function Frame(big: bool, e: Envelope, payload: seq<byte>): (s: seq<byte>)
    requires EnvelopeFits(e)
    ensures |s| == HEADER + |MW| + 12 + TIMES + |payload| + 4
  {
    Object(big, 0, MW, EnvelopeBytes(big, e) + payload)
  }

  datatype StepMessage = StepMessage(envelope: Envelope, step: MWStep)

  function ParseEnvelope(big: bool, s: seq<byte>): Envelope
    requires |s| >= 12 + TIMES
  {
    Envelope(ToInt(FromNum(big, s[..4])), ToInt(FromNum(big, s[4..8])), ToInt(FromNum(big, s[8..12])),
             s[12..12 + TIMES])
  }

  /** MWBlobIn, a step, and finish; the byte order is the one of the header. None where the source throws. */
  function DecodeMessage(reg: Registry, s: seq<byte>): Option<StepMessage> {
    var at := HEADER + |MW|;
    if |s| < at + 12 + TIMES then None
    else
      var big := s[13] == Format(true);
      match ParseHeader(big, 0, s)
      case None => None
      case Some(start) =>
        if start.name != MW || start.version != 1 then None
        else match Decode(reg, big, 1, s[at + 12 + TIMES..])
          case None => None
          case Some(p) =>
            if EndsWell(start, s, at + 12 + TIMES + p.size)
            then Some(StepMessage(ParseEnvelope(big, s[at..]), p.value)) else None
  }

  lemma IntRoundTrip(big: bool, i: int)
    requires Int32(i)
    ensures ToInt(FromNum(big, Num(big, FromInt(i), 4))) == i
  {
    Pow256Values();
    NumRoundTrip(big, FromInt(i), 4);
  }

  lemma EnvelopeRoundTrip(big: bool, e: Envelope, rest: seq<byte>)
    requires EnvelopeFits(e)
    ensures ParseEnvelope(big, EnvelopeBytes(big, e) + rest) == e
  {
    var s := EnvelopeBytes(big, e) + rest;
    assert s[..4] == Num(big, FromInt(e.oper), 4) && s[4..8] == Num(big, FromInt(e.streamId), 4);
    assert s[8..12] == Num(big, FromInt(e.workerId), 4) && s[12..12 + TIMES] == e.times;
    IntRoundTrip(big, e.oper);
    IntRoundTrip(big, e.streamId);
    IntRoundTrip(big, e.workerId);
  }

  /** A step message is read back as it was written, on a machine of either byte order. */
  lemma MessageRoundTrip(reg: Registry, big: bool, e: Envelope, t: MWStep)
    requires EnvelopeFits(e) && Fits(reg, 1, t)
    requires |Frame(big, e, Encode(reg, big, 1, t))| < Pow256(8)
    ensures DecodeMessage(reg, Frame(big, e, Encode(reg, big, 1, t))) == Some(StepMessage(e, t))
  {
    hide Encode, Decode, Num, FromNum, Fits, ParseEnvelope, EnvelopeBytes, Pow256, EndsWell;
    var code, at := Encode(reg, big, 1, t), HEADER + |MW|;
    var body := EnvelopeBytes(big, e) + code;
    var s := Frame(big, e, code);
    ObjectParts(big, 0, MW, body, []);
    assert s + [] == s && EOB + [] == EOB;
    FormatAt(big, body);
    assert s[at..] == EnvelopeBytes(big, e) + (code + EOB);
    EnvelopeRoundTrip(big, e, code + EOB);
    DecodeEncode(reg, big, 1, t, EOB);
    assert s[at + 12 + TIMES..] == s[at..][12 + TIMES..] == code + EOB;
  }

  lemma FormatAt(big: bool, body: seq<byte>)
    ensures Object(big, 0, MW, body)[13] == Format(big)
  {
  }

  /** Where everything is in an object: the length of the whole, the mark, version 1, the byte order, the nesting
      level, the length of the name, the name, the contents, and the end mark. */
  lemma ObjectLayout(big: bool, level: byte, name: seq<byte>, body: seq<byte>)
    requires |name| < 256
    ensures var s, at := Object(big, level, name, body), 16 + |name|;
      && |s| == at + |body| + 4 && s[..8] == Num(big, |s|, 8) && s[8..12] == [0xbe, 0xbe, 0xbe, 0xbe]
      && s[12] == 1 && s[13] == (if big then 1 else 0) && s[14] == level && s[15] == |name|
      && s[16..at] == name && s[at..at + |body|] == body && s[at + |body|..] == [0xbf, 0xbf, 0xbf, 0xbf]
  {
    hide Num;
    var s := Object(big, level, name, body);
    var h := Num(big, HEADER + |name| + |body| + 4, 8);
    assert s == h + (MAGIC + [1, Format(big), level, |name|] + name + body + EOB);
  }

  /** An integer of the envelope: the low 32 bits. */
  function Low32(i: int): nat { i % 0x1_0000_0000 }

  /** Where everything is in a message: an object mw at level 0 with operation, stream, worker and times first. */
  lemma FrameLayout(big: bool, e: Envelope, payload: seq<byte>)
    requires EnvelopeFits(e)
    ensures var s := Frame(big, e, payload);
      && |s| == 54 + |payload| && s[..8] == Num(big, |s|, 8) && s[8..12] == [0xbe, 0xbe, 0xbe, 0xbe]
      && s[12..18] == [1, if big then 1 else 0, 0, 2, 'm' as int, 'w' as int]
      && s[18..22] == Num(big, Low32(e.oper), 4) && s[22..26] == Num(big, Low32(e.streamId), 4)
      && s[26..30] == Num(big, Low32(e.workerId), 4) && s[30..50] == e.times
      && s[50..50 + |payload|] == payload && s[50 + |payload|..] == [0xbf, 0xbf, 0xbf, 0xbf]
  {
    hide Num;
    var s, b := Frame(big, e, payload), EnvelopeBytes(big, e);
    ObjectLayout(big, 0, MW, b + payload);
    assert s[18..50 + |payload|] == b + payload;
    hide Frame;
    assert s[16..18] == MW;
    assert forall i :: 0 <= i < 32 ==> s[18 + i] == b[i];
    assert s[18..50] == b;
    assert b[..4] == s[18..22] && b[4..8] == s[22..26] && b[8..12] == s[26..30] && b[12..32] == s[30..50];
    assert s[50..50 + |payload|] == s[18..50 + |payload|][32..];
  }

  /** Leaf steps are objects of their class with the length of their data, 8 bytes, and the data; a multi step is
      one of class MWMultiStep with the number of steps, 4 bytes, and the steps. */
  lemma StepLayout(reg: Registry, big: bool, level: nat, t: MWStep)
    requires Fits(reg, level, t)
    ensures t.LocalStep? || t.GlobalStep? ==>
      Encode(reg, big, level, t) == Object(big, level, t.leaf.className, Num(big, |t.leaf.data|, 8) + t.leaf.data)
    ensures t.MultiStep? ==>
      Encode(reg, big, level, t) ==
        Object(big, level, Bytes("MWMultiStep"), Num(big, |t.steps|, 4) + EncodeAll(reg, big, level + 1, t.steps))
  {
  }

  /** The characters of a name. */
  function Bytes(name: string): (s: seq<byte>)
    requires forall i :: 0 <= i < |name| ==> name[i] as int < 256
    ensures |s| == |name| && forall i :: 0 <= i < |name| ==> s[i] == name[i] as int
  {
    seq(|name|, i requires 0 <= i < |name| => name[i] as int)
  }

  /** The message with bytes replaced from a position on. */
  function Patch(s: seq<byte>, at: nat, bytes: seq<byte>): (r: seq<byte>)
    requires at + |bytes| <= |s|
    ensures |r| == |s|
  {
    s[..at] + bytes + s[at + |bytes|..]
  }

  /** Where MWBlobOut remembers to find the operation. */
  const OPER_OFFSET := HEADER + |MW|

  /** Resetting the operation in the buffer gives the message with the other operation. */
  lemma SetOperation(big: bool, e: Envelope, oper: int, payload: seq<byte>)
    requires EnvelopeFits(e) && Int32(oper)
    ensures Patch(Frame(big, e, payload), OPER_OFFSET, Num(big, FromInt(oper), 4))
         == Frame(big, e.(oper := oper), payload)
  {
  }
}
