/** The streams that write and read blobs, and the step classes that use them. */
module BlobStreams {
  import opened Options
  import opened MWSteps
  import opened Blobs

  // ---------------------------------------------------------------- writing

  class BlobOStream {
    const big: bool
    var buf: seq<byte>
    var itsCurLength: nat
    var itsLevel: nat
    var itsObjLen: seq<nat>
    var itsObjPtr: seq<nat>

    constructor (big: bool)
      ensures this.big == big && buf == [] && itsCurLength == itsLevel == 0 && itsObjLen == itsObjPtr == []
    {
      this.big := big;
      buf, itsCurLength, itsLevel, itsObjLen, itsObjPtr := [], 0, 0, [], [];
    }

    /** Starts an object: its header is written with length 0, and where to put the length is remembered. */
    method PutStart(name: seq<byte>)
      requires |name| < 256 && itsLevel < 256
      modifies this
      ensures buf == old(buf) + Header(big, old(itsLevel), 0, name)
      ensures itsCurLength == HEADER + |name| && itsLevel == old(itsLevel) + 1
      ensures itsObjLen == old(itsObjLen) + [old(itsCurLength)] && itsObjPtr == old(itsObjPtr) + [|old(buf)|]
    {
      var hdr := Header(big, itsLevel, 0, name);
      itsObjLen := itsObjLen + [itsCurLength];
      itsObjPtr := itsObjPtr + [|buf|];
      itsCurLength := 0;
      itsLevel := itsLevel + 1;
      PutBuf(hdr);
    }

    method PutBuf(data: seq<byte>)
      requires itsLevel > 0  // otherwise nothing was started
      modifies this`buf, this`itsCurLength
      ensures buf == old(buf) + data && itsCurLength == old(itsCurLength) + |data|
    {
      buf := buf + data;
      itsCurLength := itsCurLength + |data|;
    }

    /** Ends the object: the end mark is written and the length is put where its header is. */
    method PutEnd()
      requires itsLevel > 0 && itsObjLen != [] && itsObjPtr != [] && itsObjPtr[|itsObjPtr| - 1] + 8 <= |buf|
      modifies this
      ensures itsLevel == old(itsLevel) - 1
      ensures buf == Patch(old(buf) + EOB, old(itsObjPtr)[|old(itsObjPtr)| - 1], Num(big, old(itsCurLength) + 4, 8))
      ensures itsObjLen == old(itsObjLen)[..|old(itsObjLen)| - 1] && itsObjPtr == old(itsObjPtr)[..|old(itsObjPtr)| - 1]
      ensures itsCurLength
           == old(itsObjLen)[|old(itsObjLen)| - 1] + if itsLevel > 0 then old(itsCurLength) + 4 else 0
    {
      PutBuf(EOB);
      var len, pos := itsCurLength, itsObjPtr[|itsObjPtr| - 1];
      itsCurLength := itsObjLen[|itsObjLen| - 1];
      itsObjLen := itsObjLen[..|itsObjLen| - 1];
      itsObjPtr := itsObjPtr[..|itsObjPtr| - 1];
      buf := Patch(buf, pos, Num(big, len, 8));
      itsLevel := itsLevel - 1;
      if itsLevel > 0 {
        itsCurLength := itsCurLength + len;
      }
    }

    /** Writes a step. Filling in the lengths afterwards leaves the layout every reader expects. */
    method PutStep(reg: Registry, t: MWStep)
      requires itsLevel > 0 && Fits(reg, itsLevel, t)
      modifies this
      ensures buf == old(buf) + Encode(reg, big, old(itsLevel), t)
      ensures itsCurLength == old(itsCurLength) + |Encode(reg, big, old(itsLevel), t)|
      ensures itsLevel == old(itsLevel) && itsObjLen == old(itsObjLen) && itsObjPtr == old(itsObjPtr)
      decreases t
    {
      hide Object, Header, EncodeAll, Num;
      match t
      case LocalStep(leaf) => PutLeaf(reg, leaf);
      case GlobalStep(leaf) => PutLeaf(reg, leaf);
      case MultiStep(steps) =>
        ghost var head := Header(big, itsLevel, 0, MULTI);
        var count := Num(big, |steps|, 4);
        PutStart(MULTI);
        PutBuf(count);
        NoSteps(reg, big, itsLevel, []);
        for i := 0 to |steps|
          invariant itsLevel == old(itsLevel) + 1
          invariant itsObjLen == old(itsObjLen) + [old(itsCurLength)] && itsObjPtr == old(itsObjPtr) + [|old(buf)|]
          invariant buf == old(buf) + head + (count + EncodeAll(reg, big, itsLevel, steps[..i]))
          invariant itsCurLength == |buf| - |old(buf)|
        {
          EncodeAllAppend(reg, big, itsLevel, steps[..i], steps[i]);
          assert steps[..i + 1] == steps[..i] + [steps[i]];
          PutStep(reg, steps[i]);
        }
        assert steps[..|steps|] == steps;
        PatchObject(big, old(buf), old(itsLevel), MULTI, count + EncodeAll(reg, big, itsLevel, steps));
        PutEnd();
    }

    method PutLeaf(reg: Registry, leaf: Leaf)
      requires 0 < itsLevel < 256 && LeafFits(reg, leaf)
      modifies this
      ensures buf == old(buf) + Object(big, old(itsLevel), leaf.className, LeafBody(big, leaf))
      ensures itsCurLength == old(itsCurLength) + |Object(big, old(itsLevel), leaf.className, LeafBody(big, leaf))|
      ensures itsLevel == old(itsLevel) && itsObjLen == old(itsObjLen) && itsObjPtr == old(itsObjPtr)
    {
      hide Object, Header, Num;
      PutStart(leaf.className);
      PutBuf(Num(big, |leaf.data|, 8));
      PutBuf(leaf.data);
      PatchObject(big, old(buf), old(itsLevel), leaf.className, LeafBody(big, leaf));
      assert buf == old(buf) + Header(big, old(itsLevel), 0, leaf.className) + LeafBody(big, leaf);
      PutEnd();
    }

    /** A whole message: MWBlobOut, a step, and finish. */
    method PutMessage(reg: Registry, e: Envelope, t: MWStep)
      requires buf == [] && itsLevel == 0 && itsObjLen == itsObjPtr == []
      requires EnvelopeFits(e) && Fits(reg, 1, t)
      modifies this
      ensures buf == Frame(big, e, Encode(reg, big, 1, t)) && itsLevel == 0
    {
      hide Object, Header, Num, Encode, EnvelopeBytes, Fits;
      ghost var body := EnvelopeBytes(big, e) + Encode(reg, big, 1, t);
      PutStart(MW);
      PutBuf(EnvelopeBytes(big, e));
      PutStep(reg, t);
      PatchObject(big, [], 0, MW, body);
      assert buf == [] + Header(big, 0, 0, MW) + body;
      PutEnd();
      assert [] + Object(big, 0, MW, body) == Object(big, 0, MW, body);
    }
  }

  /** Putting the length into the header of an object that was written with length 0. */
  lemma PatchObject(big: bool, before: seq<byte>, level: byte, name: seq<byte>, body: seq<byte>)
    requires |name| < 256
    ensures var s := before + Header(big, level, 0, name) + body + EOB;
      |before| + 8 <= |s| &&
      Patch(s, |before|, Num(big, HEADER + |name| + |body| + 4, 8)) == before + Object(big, level, name, body)
  {
  }

  // ---------------------------------------------------------------- reading

  /** The end of an object that starts at from, as a position of the data. */
  predicate EndAt(data: seq<byte>, from: nat, start: Start, end: nat) {
    end + 4 <= |data| && data[end..end + 4] == EOB && (start.total + from == end + 4 || start.total == 0)
  }

  lemma EndsWellAt(data: seq<byte>, from: nat, start: Start, read: nat)
    requires from + read <= |data|
    ensures EndsWell(start, data[from..], read) == EndAt(data, from, start, from + read)
  {
    if from + read + 4 <= |data| { Within(data, from, read, read + 4); }
  }

  lemma MultiAt(reg: Registry, big: bool, level: nat, data: seq<byte>, from: nat, start: Start)
    requires from <= |data| && ParseHeader(big, level, data[from..]) == Some(start) && start.name == MULTI
    ensures var at := from + HEADER + |MULTI|;
      Decode(reg, big, level, data[from..]) ==
        if start.version != 1 || |data| < at + 4 then None
        else match DecodeMany(reg, big, level + 1, FromNum(big, data[at..at + 4]), data[at + 4..])
          case None => None
          case Some(p) =>
            if EndAt(data, from, start, at + 4 + p.size) then Some(Parsed(MultiStep(p.value), at + 8 + p.size - from))
            else None
  {
    hide FromNum, DecodeMany, EndsWell, EndAt, ParseHeader;
    var at := HEADER + |MULTI|;
    if from + at + 4 <= |data| {
      Within(data, from, at, at + 4);
      assert data[from..][at + 4..] == data[from + at + 4..];
      var q := DecodeMany(reg, big, level + 1, FromNum(big, data[from..][at..at + 4]), data[from..][at + 4..]);
      if q.Some? { EndsWellAt(data, from, start, at + 4 + q.value.size); }
    }
  }

  lemma LeafAt(reg: Registry, big: bool, level: nat, data: seq<byte>, from: nat, start: Start)
    requires from <= |data| && ParseHeader(big, level, data[from..]) == Some(start)
    requires start.name != MULTI && start.name in reg
    ensures var at := from + HEADER + |start.name|;
      Decode(reg, big, level, data[from..]) ==
        if |data| < at + 8 then None
        else
          var end := at + 8 + FromNum(big, data[at..at + 8]);
          if EndAt(data, from, start, end) then
            var leaf := Leaf(start.name, data[at + 8..end]);
            Some(Parsed(if reg[start.name] then LocalStep(leaf) else GlobalStep(leaf), end + 4 - from))
          else None
  {
    hide FromNum, DecodeMany, ParseHeader;
    var at := HEADER + |start.name|;
    if from + at + 8 <= |data| {
      Within(data, from, at, at + 8);
      var read := at + 8 + FromNum(big, data[from..][at..at + 8]);
      if from + read <= |data| {
        EndsWellAt(data, from, start, read);
        Within(data, from, at + 8, read);
      }
    }
  }

  lemma NoHeader(reg: Registry, big: bool, level: nat, data: seq<byte>, from: nat)
    requires from <= |data| < from + HEADER
    ensures Decode(reg, big, level, data[from..]).None?
  {
    ShortHeader(big, level, data[from..]);
  }

  lemma Within(data: seq<byte>, from: nat, i: nat, j: nat)
    requires i <= j && from + j <= |data|
    ensures data[from..][i..j] == data[from + i..from + j]
  {
  }

  lemma ShortHeader(big: bool, level: nat, s: seq<byte>)
    requires |s| < HEADER
    ensures ParseHeader(big, level, s).None?
  {
  }

  /** What the header is before it is read: that of an object of no name, of version and level 0. */
  function EmptyHeader(host: bool): (r: seq<byte>)
    ensures |r| == HEADER
  {
    [0, 0, 0, 0, 0, 0, 0, 0] + MAGIC + [0, Format(host), 0, 0]
  }

  /** A header that is cut short is completed with an object length of 0, the mark, version and level 0, the byte
      order of this machine, and no name. */
  lemma CutShort(host: bool, rest: seq<byte>, i: nat)
    requires |rest| < 16 && i < 16
    ensures ReadHeader(host, rest)[i] ==
      if i < |rest| then rest[i] else if 8 <= i < 12 then 0xbe else if i == 13 && host then 1 else 0
  {
  }

  /** The header that is read from the bytes there are, which may be too few. */
  function ReadHeader(host: bool, rest: seq<byte>): (r: seq<byte>)
    ensures |r| == HEADER
  {
    if |rest| < HEADER then rest + EmptyHeader(host)[|rest|..] else rest[..HEADER]
  }

  lemma HeaderAt(big: bool, level: nat, data: seq<byte>, pos: nat)
    requires pos + HEADER <= |data|
    ensures var hdr, end := data[pos..pos + HEADER], pos + HEADER + data[pos + 15];
      ParseHeader(big, level, data[pos..]) ==
        if hdr[8..12] != MAGIC || hdr[14] > level || hdr[13] != Format(big) || |data| < end then None
        else Some(Start(FromNum(big, hdr[..8]), hdr[12], data[pos + HEADER..end]))
  {
    hide FromNum;
    var hdr := data[pos..pos + HEADER];
    var rest := data[pos..];
    assert forall k :: 0 <= k < HEADER ==> rest[k] == hdr[k];
    assert rest[8..12] == hdr[8..12];
    assert rest[..8] == hdr[..8];
    if |data| >= pos + HEADER + hdr[15] { Within(data, pos, HEADER, HEADER + hdr[15]); }
  }

  /** The header read, against what the decoder takes for one. */
  lemma HeaderOf(host: bool, big: bool, level: nat, data: seq<byte>, pos: nat)
    requires pos <= |data|
    ensures var hdr, end := ReadHeader(host, data[pos..]), pos + HEADER + ReadHeader(host, data[pos..])[15];
      if |data| < pos + HEADER then hdr[15] == 0
      else
        && data[pos..][13] == hdr[13]
        && ParseHeader(big, level, data[pos..]) ==
             if hdr[8..12] != MAGIC || hdr[14] > level || hdr[13] != Format(big) || |data| < end then None
             else Some(Start(FromNum(big, hdr[..8]), hdr[12], data[pos + HEADER..end]))
  {
    hide FromNum, ParseHeader;
    if pos + HEADER <= |data| {
      assert ReadHeader(host, data[pos..]) == data[pos..pos + HEADER];
      HeaderAt(big, level, data, pos);
    }
  }

  class BlobIStream {
    const data: seq<byte>

    /** Whether this machine is big endian. */
    const host: bool
    var big: bool
    var pos: nat
    var itsHasCachedType: bool
    var itsObjectType: seq<byte>
    var itsVersion: byte
    var itsCurLength: nat
    var itsLevel: nat
    var itsObjLen: seq<nat>
    var itsObjTLN: seq<nat>

    /** No object type has been read ahead. */
    predicate Ready()
      reads this
    {
      pos <= |data| && !itsHasCachedType
    }

    constructor (data: seq<byte>, host: bool)
      ensures this.data == data && this.host == host && Ready()
      ensures pos == itsLevel == itsCurLength == 0 && itsObjLen == itsObjTLN == []
    {
      this.data, this.host := data, host;
      big, pos, itsHasCachedType, itsObjectType, itsVersion, itsCurLength := false, 0, false, [], 0, 0;
      itsLevel, itsObjLen, itsObjTLN := 0, [], [];
    }

    /** Reads the header of the next object, unless that has been done; false where the source throws. The
        length read is not checked: of a header that is cut short the rest is as it was before, so that the
        object has no name. */
    method GetNextType() returns (ok: bool)
      requires itsHasCachedType || Ready()
      modifies this
      ensures old(itsHasCachedType) ==> ok && unchanged(this)
      ensures !old(itsHasCachedType) && old(itsLevel) > 0 ==> big == old(big)
      ensures !old(itsHasCachedType) && ok ==> itsHasCachedType && itsLevel == old(itsLevel) + 1
      ensures !old(itsHasCachedType) && ok ==>
        itsObjLen == old(itsObjLen) + [old(itsCurLength)] && itsCurLength == HEADER + |itsObjectType|
      ensures !old(itsHasCachedType) && |data| < old(pos) + HEADER ==>
        var hdr := ReadHeader(host, data[old(pos)..]);
        && ok == (hdr[8..12] == MAGIC && hdr[14] <= old(itsLevel) &&
                  hdr[13] == Format(if old(itsLevel) == 0 then hdr[13] == Format(true) else old(big)))
        && (ok ==> itsObjectType == [] && itsVersion == hdr[12] && pos == |data|)
        && (ok ==> itsObjTLN == old(itsObjTLN) + [FromNum(big, hdr[..8])])
      ensures !old(itsHasCachedType) && old(pos) + HEADER <= |data| ==>
        var rest := data[old(pos)..];
        var format := if old(itsLevel) == 0 then rest[13] == Format(true) else old(big);
        match ParseHeader(format, old(itsLevel), rest)
        case None => !ok
        case Some(start) =>
          && ok && big == format && itsObjectType == start.name && itsVersion == start.version
          && pos == old(pos) + HEADER + |itsObjectType| && itsObjTLN == old(itsObjTLN) + [start.total]
    {
      if itsHasCachedType {
        return true;
      }
      hide FromNum, ParseHeader, ReadHeader, MAGIC;
      var hdr := ReadHeader(host, data[pos..]);
      HeaderOf(host, if itsLevel == 0 then hdr[13] == Format(true) else big, itsLevel, data, pos);
      if hdr[8..12] != MAGIC || itsLevel < hdr[14] { return false; }
      if itsLevel == 0 {
        big := hdr[13] == Format(true);
      }
      if hdr[13] != Format(big) { return false; }
      itsLevel := itsLevel + 1;
      itsObjLen := itsObjLen + [itsCurLength];
      itsObjTLN := itsObjTLN + [FromNum(big, hdr[..8])];
      itsVersion := hdr[12];
      pos := if |data| - pos < HEADER then |data| else pos + HEADER;
      itsCurLength := HEADER;
      ok := GetName(hdr[15]);
    }

    /** Reads the name of the object. */
    method GetName(length: nat) returns (ok: bool)
      requires pos <= |data| && itsLevel > 0
      modifies this`pos, this`itsCurLength, this`itsObjectType, this`itsHasCachedType
      ensures ok <==> old(pos) + length <= |data|
      ensures ok ==> itsHasCachedType && pos == old(pos) + length && itsCurLength == old(itsCurLength) + length
      ensures ok ==> itsObjectType == data[old(pos)..pos]
    {
      itsObjectType := [];
      if length > 0 {
        var name := GetBuf(length);
        if name.None? { return false; }
        itsObjectType := name.value;
      }
      itsHasCachedType := true;
      ok := true;
    }

    /** Reads sz bytes; None where the source throws. */
    method GetBuf(sz: nat) returns (r: Option<seq<byte>>)
      requires pos <= |data| && itsLevel > 0
      modifies this`pos, this`itsCurLength
      ensures r.Some? <==> old(pos) + sz <= |data|
      ensures r.Some? ==> pos == old(pos) + sz && itsCurLength == old(itsCurLength) + sz
      ensures r.Some? ==> r.value == data[old(pos)..pos]
    {
      if |data| - pos < sz { return None; }
      r := Some(data[pos..pos + sz]);
      pos := pos + sz;
      itsCurLength := itsCurLength + sz;
    }

    /** Checks the end mark and that all of the object has been read; false where the source throws. */
    method GetEnd() returns (ok: bool)
      requires pos <= |data| && itsLevel > 0 && itsObjLen != [] && itsObjTLN != []
      modifies this
      ensures big == old(big) && itsHasCachedType == old(itsHasCachedType)
      ensures ok <==>
        var total := old(itsObjTLN)[|old(itsObjTLN)| - 1];
        old(pos) + 4 <= |data| && data[old(pos)..old(pos) + 4] == EOB && (total == old(itsCurLength) + 4 || total == 0)
      ensures ok ==> pos == old(pos) + 4 && itsLevel == old(itsLevel) - 1
      ensures ok ==> itsObjLen == old(itsObjLen)[..|old(itsObjLen)| - 1]
      ensures ok ==> itsObjTLN == old(itsObjTLN)[..|old(itsObjTLN)| - 1]
      ensures ok ==>
        itsCurLength == old(itsObjLen)[|old(itsObjLen)| - 1] + if itsLevel > 0 then old(itsCurLength) + 4 else 0
    {
      var eob := GetBuf(4);
      if eob.None? || eob.value != EOB { return false; }
      var toRead, len := itsObjTLN[|itsObjTLN| - 1], itsCurLength;
      itsCurLength := itsObjLen[|itsObjLen| - 1];
      itsObjTLN := itsObjTLN[..|itsObjTLN| - 1];
      itsObjLen := itsObjLen[..|itsObjLen| - 1];
      if !(len == toRead || toRead == 0) { return false; }
      itsLevel := itsLevel - 1;
      if itsLevel > 0 {
        itsCurLength := itsCurLength + len;
      }
      return true;
    }

    /** The object that was started at from is read up to here. */
    ghost predicate Inside(from: nat, level: nat, start: Start, curLength: nat, objLen: seq<nat>, objTLN: seq<nat>)
      reads this
    {
      && Ready() && from <= pos && level > 0
      && ParseHeader(big, level, data[from..]) == Some(start)
      && itsLevel == level + 1 && itsCurLength == pos - from
      && itsObjLen == objLen + [curLength] && itsObjTLN == objTLN + [start.total]
    }

    /** Reads a step. On every input the result is that of the decoder, and after a success exactly the
        bytes of the step have been read. */
    method GetStep(reg: Registry) returns (r: Option<MWStep>)
      requires Ready() && itsLevel > 0
      modifies this
      ensures big == old(big)
      ensures match Decode(reg, old(big), old(itsLevel), data[old(pos)..])
        case None => r.None?
        case Some(p) =>
          && r == Some(p.value) && Ready() && pos == old(pos) + p.size && itsLevel == old(itsLevel)
          && itsCurLength == old(itsCurLength) + p.size && itsObjLen == old(itsObjLen) && itsObjTLN == old(itsObjTLN)
      decreases |data| - pos, 1
    {
      ghost var from, level, rest := pos, itsLevel, data[pos..];
      ghost var curLength, objLen, objTLN := itsCurLength, itsObjLen, itsObjTLN;
      var ok := GetNextType();
      if !ok { return None; }
      itsHasCachedType := false;
      ghost var start := if |rest| < HEADER then Start(0, 0, []) else ParseHeader(big, level, rest).value;
      if |rest| < HEADER {
        ShortHeader(big, level, rest);
      } else {
        assert Inside(from, level, start, curLength, objLen, objTLN);
      }
      if itsObjectType == MULTI {
        r := GetMulti(reg, from, level, start, curLength, objLen, objTLN);
      } else if itsObjectType in reg {
        r := GetLeaf(reg, itsObjectType, from, level, start, curLength, objLen, objTLN);
      } else {
        r := None;
      }
    }

    method GetMulti(reg: Registry, ghost from: nat, ghost level: nat, ghost start: Start, ghost curLength: nat,
                    ghost objLen: seq<nat>, ghost objTLN: seq<nat>)
      returns (r: Option<MWStep>)
      requires Inside(from, level, start, curLength, objLen, objTLN)
      requires start.name == MULTI && pos == from + HEADER + |MULTI| && itsVersion == start.version
      modifies this
      ensures big == old(big)
      ensures match Decode(reg, big, level, data[from..])
        case None => r.None?
        case Some(p) =>
          && r == Some(p.value) && Ready() && pos == from + p.size && itsLevel == level
          && itsCurLength == curLength + p.size && itsObjLen == objLen && itsObjTLN == objTLN
      decreases |data| - pos, 0
    {
      hide FromNum, Decode, DecodeMany, ParseHeader;
      MultiAt(reg, big, level, data, from, start);
      if itsVersion != 1 { return None; }
      var count := GetBuf(4);
      if count.None? { return None; }
      var steps := GetSteps(reg, FromNum(big, count.value));
      if steps.None? { return None; }
      var ok := GetEnd();
      if !ok { return None; }
      r := Some(MultiStep(steps.value));
    }

    /** Reads nr steps one after the other. */
    method GetSteps(reg: Registry, nr: nat) returns (r: Option<seq<MWStep>>)
      requires Ready() && itsLevel > 0
      modifies this
      ensures big == old(big)
      ensures match DecodeMany(reg, old(big), old(itsLevel), nr, data[old(pos)..])
        case None => r.None?
        case Some(p) =>
          && r == Some(p.value) && Ready() && pos == old(pos) + p.size && itsLevel == old(itsLevel)
          && itsCurLength == old(itsCurLength) + p.size && itsObjLen == old(itsObjLen) && itsObjTLN == old(itsObjTLN)
      decreases |data| - pos, 2
    {
      hide Decode, DecodeMany;
      var steps: seq<MWStep> := [];
      ghost var whole := DecodeMany(reg, big, itsLevel, nr, data[pos..]);
      OnwardFromStart(whole);
      for i := 0 to nr
        invariant Ready() && pos >= old(pos) && big == old(big) && itsLevel == old(itsLevel)
        invariant itsCurLength == old(itsCurLength) + (pos - old(pos))
        invariant itsObjLen == old(itsObjLen) && itsObjTLN == old(itsObjTLN)
        invariant whole == Onward(steps, pos - old(pos), DecodeMany(reg, big, itsLevel, nr - i, data[pos..]))
      {
        OnwardStep(reg, big, itsLevel, nr - i, data, old(pos), pos, steps);
        var step := GetStep(reg);
        if step.None? { return None; }
        steps := steps + [step.value];
      }
      DecodeManyNone(reg, big, itsLevel, data[pos..]);
      assert steps + [] == steps;
      r := Some(steps);
    }

    method GetLeaf(reg: Registry, name: seq<byte>, ghost from: nat, ghost level: nat, ghost start: Start,
                   ghost curLength: nat, ghost objLen: seq<nat>, ghost objTLN: seq<nat>)
      returns (r: Option<MWStep>)
      requires Ready() && itsLevel > 0 && name != MULTI && name in reg
      requires if from + HEADER <= |data|
        then Inside(from, level, start, curLength, objLen, objTLN) && start.name == name &&
          pos == from + HEADER + |name|
        else from <= |data| && pos == |data|
      modifies this
      ensures big == old(big)
      ensures match Decode(reg, big, level, data[from..])
        case None => r.None?
        case Some(p) =>
          && r == Some(p.value) && Ready() && pos == from + p.size && itsLevel == level
          && itsCurLength == curLength + p.size && itsObjLen == objLen && itsObjTLN == objTLN
    {
      hide FromNum, Decode, ParseHeader;
      if from + HEADER <= |data| {
        LeafAt(reg, big, level, data, from, start);
      } else {
        NoHeader(reg, big, level, data, from);
      }
      var count := GetBuf(8);
      if count.None? { return None; }
      var bytes := GetBuf(FromNum(big, count.value));
      if bytes.None? { return None; }
      var ok := GetEnd();
      if !ok { return None; }
      var leaf := Leaf(name, bytes.value);
      r := Some(if reg[name] then LocalStep(leaf) else GlobalStep(leaf));
    }
  }

  /** What is decoded in all when some steps have been read and the rest is decoded as q. */
  function Onward(steps: seq<MWStep>, size: nat, q: Option<Parsed<seq<MWStep>>>): Option<Parsed<seq<MWStep>>> {
    match q
    case None => None
    case Some(p) => Some(Parsed(steps + p.value, size + p.size))
  }

  lemma OnwardFromStart(q: Option<Parsed<seq<MWStep>>>)
    ensures Onward([], 0, q) == q
  {
    if q.Some? { assert [] + q.value.value == q.value.value; }
  }

  lemma DecodeManyNone(reg: Registry, big: bool, level: nat, s: seq<byte>)
    ensures DecodeMany(reg, big, level, 0, s) == Some(Parsed([], 0))
  {
  }

  lemma DecodeManyFails(reg: Registry, big: bool, level: nat, n: nat, s: seq<byte>)
    requires n > 0 && Decode(reg, big, level, s).None?
    ensures DecodeMany(reg, big, level, n, s).None?
  {
  }

  lemma OnwardStep(reg: Registry, big: bool, level: nat, n: nat, data: seq<byte>, first: nat, pos: nat,
                   steps: seq<MWStep>)
    requires n > 0 && first <= pos <= |data|
    ensures match Decode(reg, big, level, data[pos..])
      case None => DecodeMany(reg, big, level, n, data[pos..]).None?
      case Some(p) =>
        && pos + p.size <= |data|
        && Onward(steps, pos - first, DecodeMany(reg, big, level, n, data[pos..]))
           == Onward(steps + [p.value], pos + p.size - first, DecodeMany(reg, big, level, n - 1, data[pos + p.size..]))
  {
    hide Decode, DecodeMany;
    if Decode(reg, big, level, data[pos..]).None? {
      DecodeManyFails(reg, big, level, n, data[pos..]);
    } else {
      var p := Decode(reg, big, level, data[pos..]).value;
      DecodeManyCons(reg, big, level, n, data[pos..]);
      assert data[pos..][p.size..] == data[pos + p.size..];
      match DecodeMany(reg, big, level, n - 1, data[pos + p.size..])
      case None =>
      case Some(q) => assert steps + ([p.value] + q.value) == steps + [p.value] + q.value;
    }
  }
}
