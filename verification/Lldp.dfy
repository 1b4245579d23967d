/** Reading LLDP frames: the TLV stream of IEEE 802.1AB-2009, clauses 8.4 and 8.5, and the rack
    slug of the switch that sent them.  Text decoding is any partial function on bytes. */
module Lldp {
  import opened Text
  import Slug

  type Byte = b: int | 0 <= b < 256

  type Decoder = seq<Byte> -> Option<string>

  datatype ChassisKind = Mac | Name | OtherKind

  datatype Neighbor = Neighbor(
    interface: string,
    chassisId: string,
    chassisKind: ChassisKind,
    portId: string,
    systemName: Option<string>)

  // Printing bytes

  function HexByte(b: Byte): string {
    [HexDigit(b / 16), HexDigit(b % 16)]
  }

  function Hex(bytes: seq<Byte>): (r: string)
    ensures |r| == 2 * |bytes|
  {
    if bytes == [] then "" else Hex(bytes[..|bytes| - 1]) + HexByte(bytes[|bytes| - 1])
  }

  method HexEncode(bytes: seq<Byte>) returns (s: string)
    ensures s == Hex(bytes)
  {
    s := "";
    for i := 0 to |bytes|
      invariant s == Hex(bytes[..i])
    {
      assert bytes[..i + 1][..i] == bytes[..i];
      s := s + HexByte(bytes[i]);
    }
    assert bytes[..|bytes|] == bytes;
  }

  function MacToString(b: seq<Byte>): string
    requires |b| == 6
  {
    HexByte(b[0]) + ":" + HexByte(b[1]) + ":" + HexByte(b[2]) + ":"
    + HexByte(b[3]) + ":" + HexByte(b[4]) + ":" + HexByte(b[5])
  }

  lemma HexByteReads(b: Byte)
    ensures 16 * Nibble(HexByte(b)[0]) + Nibble(HexByte(b)[1]) == b
    ensures 0 <= Nibble(HexByte(b)[0]) < 16 && 0 <= Nibble(HexByte(b)[1]) < 16
  {
    hide Nibble, HexDigit;
    NibbleReads(b / 16);
    NibbleReads(b % 16);
  }

  /** Hex text reads back byte by byte, in order: two lower-case digits each, the high one first. */
  lemma {:induction false} HexReadsBack(bytes: seq<Byte>, i: nat)
    requires i < |bytes|
    ensures 0 <= Nibble(Hex(bytes)[2 * i]) < 16 && 0 <= Nibble(Hex(bytes)[2 * i + 1]) < 16
    ensures 16 * Nibble(Hex(bytes)[2 * i]) + Nibble(Hex(bytes)[2 * i + 1]) == bytes[i]
  {
    hide Nibble, HexByte;
    var k := |bytes| - 1;
    if i == k {
      HexByteReads(bytes[k]);
    } else {
      HexReadsBack(bytes[..k], i);
    }
  }

  /** A printed MAC: six bytes in order, two digits each, with colons between them. */
  lemma MacReadsBack(b: seq<Byte>, i: nat)
    requires |b| == 6 && i < 6
    ensures |MacToString(b)| == 17
    ensures 16 * Nibble(MacToString(b)[3 * i]) + Nibble(MacToString(b)[3 * i + 1]) == b[i]
    ensures i < 5 ==> MacToString(b)[3 * i + 2] == ':'
  {
    hide Nibble, HexDigit;
    HexByteReads(b[i]);
  }

  // TLVs

  datatype Tlv = Tlv(kind: nat, value: seq<Byte>)

  predicate Encodable(t: Tlv) {
    t.kind < 128 && |t.value| <= 511
  }

  const END := Tlv(0, [])

  function Encode(t: Tlv): seq<Byte>
    requires Encodable(t)
  {
    var header := t.kind * 512 + |t.value|;
    [header / 256, header % 256] + t.value
  }

  function EncodeAll(tlvs: seq<Tlv>): seq<Byte>
    requires forall t | t in tlvs :: Encodable(t)
  {
    if tlvs == [] then [] else Encode(tlvs[0]) + EncodeAll(tlvs[1..])
  }

  /** The 16-bit header, most significant byte first: seven bits of type, nine of length. */
  function SplitHeader(high: Byte, low: Byte): (nat, nat) {
    var header := 256 * (high as int) + low as int;
    (header / 512, header % 512)
  }

  /** The type is the high byte without its last bit; that bit is the highest of the length. */
  lemma SplitHeaderMeaning(high: Byte, low: Byte)
    ensures SplitHeader(high, low) == (high / 2, high % 2 * 256 + low)
  {
  }

  /** The TLVs of a frame, up to the first End or the first that does not fit. */
  function Decode(buf: seq<Byte>): seq<Tlv> {
    if |buf| < 2 then []
    else
      var (kind, len) := SplitHeader(buf[0], buf[1]);
      if 2 + len > |buf| || kind == 0 then []
      else [Tlv(kind, buf[2..2 + len])] + Decode(buf[2 + len..])
  }

  function BeforeEnd(tlvs: seq<Tlv>): seq<Tlv> {
    if tlvs == [] || tlvs[0].kind == 0 then [] else [tlvs[0]] + BeforeEnd(tlvs[1..])
  }

  lemma HeaderRoundTrip(t: Tlv, rest: seq<Byte>)
    requires Encodable(t)
    ensures var buf := Encode(t) + rest;
      && |buf| >= 2 + |t.value|
      && SplitHeader(buf[0], buf[1]) == (t.kind, |t.value|)
      && buf[2..2 + |t.value|] == t.value && buf[2 + |t.value|..] == rest
  {
  }

  /** Encoding any TLVs, then an End, then anything, decodes to the TLVs before the first End. */
  lemma {:induction false} TlvRoundTrip(tlvs: seq<Tlv>, trailing: seq<Byte>)
    requires forall t | t in tlvs :: Encodable(t)
    ensures Decode(EncodeAll(tlvs) + Encode(END) + trailing) == BeforeEnd(tlvs)
  {
    if tlvs == [] {
      HeaderRoundTrip(END, trailing);
      assert EncodeAll(tlvs) + Encode(END) + trailing == Encode(END) + trailing;
    } else {
      var rest := EncodeAll(tlvs[1..]) + Encode(END) + trailing;
      assert EncodeAll(tlvs) + Encode(END) + trailing == Encode(tlvs[0]) + rest;
      HeaderRoundTrip(tlvs[0], rest);
      if tlvs[0].kind != 0 {
        TlvRoundTrip(tlvs[1..], trailing);
      }
    }
  }

  // What a frame says

  function ParseChassisId(val: seq<Byte>, utf8: Decoder): Option<(string, ChassisKind)> {
    if val == [] then None
    else
      var subtype, body := val[0], val[1..];
      if subtype == 4 && |body| == 6 then Some((MacToString(body), Mac))
      else if subtype == 6 || subtype == 7 then
        match utf8(body)
        case None => None
        case Some(s) => if s == "" then None else Some((s, Name))
      else Some((Hex(body), OtherKind))
  }

  function ParsePortId(val: seq<Byte>, utf8: Decoder): Option<string> {
    if val == [] then None
    else
      var subtype, body := val[0], val[1..];
      if subtype == 3 && |body| == 6 then Some(MacToString(body))
      else if subtype == 5 || subtype == 6 || subtype == 7 then utf8(body)
      else Some(Hex(body))
  }

  /** A chassis id by its subtype: 4 with six bytes is a MAC, 6 and 7 are names, which must be
      non-empty text, and anything else is shown in hexadecimal. */
  lemma ChassisIdMeaning(subtype: Byte, body: seq<Byte>, utf8: Decoder)
    ensures ParseChassisId([], utf8).None?
    ensures subtype == 4 && |body| == 6 ==> ParseChassisId([subtype] + body, utf8) == Some((MacToString(body), Mac))
    ensures subtype in {6, 7} ==>
      forall id :: ParseChassisId([subtype] + body, utf8) == Some(id) <==>
        utf8(body) == Some(id.0) && id.0 != "" && id.1.Name?
    ensures subtype !in {6, 7} && !(subtype == 4 && |body| == 6) ==>
      ParseChassisId([subtype] + body, utf8) == Some((Hex(body), OtherKind))
  {
    assert ([subtype] + body)[1..] == body;
  }

  /** A port id: 3 with six bytes is a MAC, 5, 6 and 7 are text, even empty, and anything else is
      shown in hexadecimal. */
  lemma PortIdMeaning(subtype: Byte, body: seq<Byte>, utf8: Decoder)
    ensures ParsePortId([], utf8).None?
    ensures subtype == 3 && |body| == 6 ==> ParsePortId([subtype] + body, utf8) == Some(MacToString(body))
    ensures subtype in {5, 6, 7} ==>
      forall id :: ParsePortId([subtype] + body, utf8) == Some(id) <==> utf8(body) == Some(id)
    ensures subtype !in {5, 6, 7} && !(subtype == 3 && |body| == 6) ==>
      ParsePortId([subtype] + body, utf8) == Some(Hex(body))
  {
    assert ([subtype] + body)[1..] == body;
  }

  /** The system name counts when it is non-empty text. */
  lemma SystemNameMeaning(val: seq<Byte>, utf8: Decoder, name: string)
    ensures ParseSystemName(val, utf8) == Some(name) <==> utf8(val) == Some(name) && name != ""
  {
  }

  function ParseSystemName(val: seq<Byte>, utf8: Decoder): Option<string> {
    match utf8(val)
    case None => None
    case Some(s) => if s == "" then None else Some(s)
  }

  /** The value of the last TLV of one kind. */
  function LastOf(tlvs: seq<Tlv>, kind: nat): Option<seq<Byte>> {
    if tlvs == [] then None
    else
      var last := tlvs[|tlvs| - 1];
      if last.kind == kind then Some(last.value) else LastOf(tlvs[..|tlvs| - 1], kind)
  }

  /** The neighbour a list of TLVs describes: the last TLV of each kind counts, even when it does
      not parse, and both mandatory ones must. */
  function Describe(tlvs: seq<Tlv>, interface: string, utf8: Decoder): Option<Neighbor> {
    var chassis, port, name := LastOf(tlvs, 1), LastOf(tlvs, 2), LastOf(tlvs, 5);
    if chassis.None? || port.None? then None
    else
      var c, p := ParseChassisId(chassis.value, utf8), ParsePortId(port.value, utf8);
      if c.None? || p.None? then None
      else Some(Neighbor(interface, c.value.0, c.value.1, p.value,
                         if name.Some? then ParseSystemName(name.value, utf8) else None))
  }

  function ChassisOf(tlvs: seq<Tlv>, utf8: Decoder): Option<(string, ChassisKind)> {
    if LastOf(tlvs, 1).Some? then ParseChassisId(LastOf(tlvs, 1).value, utf8) else None
  }

  function PortOf(tlvs: seq<Tlv>, utf8: Decoder): Option<string> {
    if LastOf(tlvs, 2).Some? then ParsePortId(LastOf(tlvs, 2).value, utf8) else None
  }

  function SystemNameOf(tlvs: seq<Tlv>, utf8: Decoder): Option<string> {
    if LastOf(tlvs, 5).Some? then ParseSystemName(LastOf(tlvs, 5).value, utf8) else None
  }

  /** What the parser knows after some TLVs. */
  ghost predicate Knows(tlvs: seq<Tlv>, utf8: Decoder,
                        chassis: Option<(string, ChassisKind)>, port: Option<string>, sysname: Option<string>) {
    chassis == ChassisOf(tlvs, utf8) && port == PortOf(tlvs, utf8) && sysname == SystemNameOf(tlvs, utf8)
  }

  /** One more TLV: the last of a kind counts, even when malformed. */
  lemma OneMoreTlv(tlvs: seq<Tlv>, t: Tlv, utf8: Decoder,
                   chassis: Option<(string, ChassisKind)>, port: Option<string>, sysname: Option<string>)
    requires Knows(tlvs, utf8, chassis, port, sysname)
    ensures Knows(tlvs + [t], utf8,
      if t.kind == 1 then ParseChassisId(t.value, utf8) else chassis,
      if t.kind == 2 then ParsePortId(t.value, utf8) else port,
      if t.kind == 5 then ParseSystemName(t.value, utf8) else sysname)
  {
    hide ParseChassisId, ParsePortId, ParseSystemName;
    assert (tlvs + [t])[..|tlvs|] == tlvs;
  }

  lemma DecodeAt(buf: seq<Byte>, p: nat)
    requires p <= |buf|
    ensures p + 2 > |buf| ==> Decode(buf[p..]) == []
    ensures p + 2 <= |buf| ==>
      var (kind, len) := SplitHeader(buf[p], buf[p + 1]);
      Decode(buf[p..]) ==
        if p + 2 + len > |buf| || kind == 0 then []
        else [Tlv(kind, buf[p + 2..p + 2 + len])] + Decode(buf[p + 2 + len..])
  {
    if p + 2 <= |buf| {
      var rest, len := buf[p..], SplitHeader(buf[p], buf[p + 1]).1;
      if p + 2 + len <= |buf| {
        assert rest[2..2 + len] == buf[p + 2..p + 2 + len] && rest[2 + len..] == buf[p + 2 + len..];
      }
    }
  }

  lemma TakeTlv(whole: seq<Tlv>, seen: seq<Tlv>, t: Tlv, rest: seq<Tlv>)
    requires whole == seen + ([t] + rest)
    ensures whole == (seen + [t]) + rest
  {
  }

  /** The parser reads inside the buffer only, ends on every input, and reports what the decoded
      TLVs describe. */
  method ParseLldpdu(buf: seq<Byte>, interface: string, utf8: Decoder) returns (r: Option<Neighbor>)
    ensures r == Describe(Decode(buf), interface, utf8)
  {
    var chassis: Option<(string, ChassisKind)>, port: Option<string>, sysname: Option<string> := None, None, None;
    var p := 0;
    ghost var seen: seq<Tlv>, done := [], false;
    assert buf[0..] == buf;
    while p + 2 <= |buf|
      invariant 0 <= p <= |buf|
      invariant Decode(buf) == seen + Decode(buf[p..])
      invariant Knows(seen, utf8, chassis, port, sysname)
      invariant !done
    {
      hide *;
      DecodeAt(buf, p);
      var (kind, len) := SplitHeader(buf[p], buf[p + 1]);
      p := p + 2;
      if p + len > |buf| {
        done := true;
        break;
      }
      var val := buf[p..p + len];
      p := p + len;
      if kind == 0 {
        done := true;
        break;
      }
      ghost var t := Tlv(kind, val);
      OneMoreTlv(seen, t, utf8, chassis, port, sysname);
      TakeTlv(Decode(buf), seen, t, Decode(buf[p..]));
      seen := seen + [t];
      match kind {
        case 1 => chassis := ParseChassisId(val, utf8);
        case 2 => port := ParsePortId(val, utf8);
        case 5 => sysname := ParseSystemName(val, utf8);
        case _ =>
      }
    }
    if !done {
      DecodeAt(buf, p);
    }
    assert Decode(buf) == seen;
    r := if chassis.None? || port.None? then None
         else Some(Neighbor(interface, chassis.value.0, chassis.value.1, port.value, sysname));
  }

  /** The last TLV of a kind is the one after which no other of that kind follows. */
  lemma {:induction false} LastOfMeaning(before: seq<Tlv>, t: Tlv, after: seq<Tlv>)
    requires forall u | u in after :: u.kind != t.kind
    ensures LastOf(before + [t] + after, t.kind) == Some(t.value)
  {
    var all := before + [t] + after;
    if after == [] {
      assert all[|all| - 1] == t;
    } else {
      assert all[..|all| - 1] == before + [t] + after[..|after| - 1];
      LastOfMeaning(before, t, after[..|after| - 1]);
    }
  }

  lemma {:induction false} NoneOfMeaning(tlvs: seq<Tlv>, kind: nat)
    ensures LastOf(tlvs, kind).None? <==> forall u | u in tlvs :: u.kind != kind
  {
    if tlvs != [] {
      NoneOfMeaning(tlvs[..|tlvs| - 1], kind);
      assert tlvs == tlvs[..|tlvs| - 1] + [tlvs[|tlvs| - 1]];
    }
  }

  /** A frame gives a neighbour exactly when the last TLVs of types 1 and 2 before its End are there
      and parse: the chassis and the port; the system name is the last one of type 5, if any. */
  lemma FrameGivesNeighbor(tlvs: seq<Tlv>, trailing: seq<Byte>, interface: string, utf8: Decoder)
    requires forall t | t in tlvs :: Encodable(t)
    ensures var r := Describe(Decode(EncodeAll(tlvs) + Encode(END) + trailing), interface, utf8);
      var sent := BeforeEnd(tlvs);
      var chassis, port, name := LastOf(sent, 1), LastOf(sent, 2), LastOf(sent, 5);
      && (r.Some? <==>
            && chassis.Some? && ParseChassisId(chassis.value, utf8).Some?
            && port.Some? && ParsePortId(port.value, utf8).Some?)
      && (r.Some? ==>
            && r.value.interface == interface
            && Some((r.value.chassisId, r.value.chassisKind)) == ParseChassisId(chassis.value, utf8)
            && Some(r.value.portId) == ParsePortId(port.value, utf8)
            && r.value.systemName == if name.Some? then ParseSystemName(name.value, utf8) else None)
  {
    hide ParseChassisId, ParsePortId, ParseSystemName, Decode, EncodeAll, Encode, BeforeEnd, LastOf;
    TlvRoundTrip(tlvs, trailing);
  }

  // Rack slugs

  function WithoutColons(s: string): string {
    if s == "" then ""
    else WithoutColons(s[..|s| - 1]) + if s[|s| - 1] == ':' then "" else [s[|s| - 1]]
  }

  function RackSlug(n: Neighbor): string {
    if n.chassisKind.Mac? then WithoutColons(n.chassisId) else Slug.Slug(n.chassisId)
  }

  lemma {:induction false} WithoutColonsConcat(a: string, b: string)
    ensures WithoutColons(a + b) == WithoutColons(a) + WithoutColons(b)
  {
    if b == "" {
      assert a + b == a;
    } else {
      assert (a + b)[..|a + b| - 1] == a + b[..|b| - 1];
      WithoutColonsConcat(a, b[..|b| - 1]);
    }
  }

  lemma HexByteHasNoColon(b: Byte)
    ensures WithoutColons(HexByte(b)) == HexByte(b) && WithoutColons(":") == ""
  {
    var h, l := [HexDigit(b / 16)], [HexDigit(b % 16)];
    assert HexByte(b) == h + l;
    WithoutColonsConcat(h, l);
  }

  lemma OneMoreByte(text: string, bytes: seq<Byte>, b: Byte)
    requires WithoutColons(text) == Hex(bytes)
    ensures WithoutColons(text + ":" + HexByte(b)) == Hex(bytes + [b])
  {
    HexByteHasNoColon(b);
    WithoutColonsConcat(text, ":");
    WithoutColonsConcat(text + ":", HexByte(b));
    assert (bytes + [b])[..|bytes|] == bytes;
  }

  /** Removing the colons of a printed MAC leaves its twelve hexadecimal digits. */
  lemma MacSlugIsHex(b: seq<Byte>)
    requires |b| == 6
    ensures WithoutColons(MacToString(b)) == Hex(b)
    ensures |Hex(b)| == 12
  {
    hide WithoutColons, HexByte, Hex;
    FirstByte(b[0]);
    var t0 := HexByte(b[0]);
    OneMoreByte(t0, [b[0]], b[1]);
    var t1 := t0 + ":" + HexByte(b[1]);
    OneMoreByte(t1, [b[0]] + [b[1]], b[2]);
    var t2 := t1 + ":" + HexByte(b[2]);
    OneMoreByte(t2, [b[0]] + [b[1]] + [b[2]], b[3]);
    var t3 := t2 + ":" + HexByte(b[3]);
    OneMoreByte(t3, [b[0]] + [b[1]] + [b[2]] + [b[3]], b[4]);
    var t4 := t3 + ":" + HexByte(b[4]);
    OneMoreByte(t4, [b[0]] + [b[1]] + [b[2]] + [b[3]] + [b[4]], b[5]);
    assert b == [b[0]] + [b[1]] + [b[2]] + [b[3]] + [b[4]] + [b[5]];
    assert MacToString(b) == t4 + ":" + HexByte(b[5]);
  }

  lemma FirstByte(b: Byte)
    ensures WithoutColons(HexByte(b)) == Hex([b])
  {
  }

  lemma HexByteInjective(a: string, b: string, i: Byte, j: Byte)
    requires a + HexByte(i) == b + HexByte(j)
    ensures a == b && i == j
  {
    hide HexDigit;
    var s, t := a + HexByte(i), b + HexByte(j);
    assert |s| == |a| + 2 && |t| == |b| + 2;
    assert s[..|a|] == a && t[..|b|] == b;
    assert s[|a|] == HexDigit(i / 16) && t[|b|] == HexDigit(j / 16);
    assert s[|a| + 1] == HexDigit(i % 16) && t[|b| + 1] == HexDigit(j % 16);
    HexDigitInjective(i / 16, j / 16);
    HexDigitInjective(i % 16, j % 16);
  }

  lemma {:induction false} HexInjective(a: seq<Byte>, b: seq<Byte>)
    requires Hex(a) == Hex(b)
    ensures a == b
  {
    hide HexByte;
    if a != [] {
      HexByteInjective(Hex(a[..|a| - 1]), Hex(b[..|b| - 1]), a[|a| - 1], b[|b| - 1]);
      HexInjective(a[..|a| - 1], b[..|b| - 1]);
      assert a == a[..|a| - 1] + [a[|a| - 1]] && b == b[..|b| - 1] + [b[|b| - 1]];
    }
  }

  /** A frame whose last chassis TLV is a MAC and whose last port TLV parses, with whatever other
      TLVs and trailing bytes, gives that MAC's twelve digits as the rack. */
  lemma MacFrameGivesRack(tlvs: seq<Tlv>, trailing: seq<Byte>, interface: string, utf8: Decoder, mac: seq<Byte>)
    requires forall t | t in tlvs :: Encodable(t)
    requires |mac| == 6 && LastOf(BeforeEnd(tlvs), 1) == Some([4] + mac)
    requires LastOf(BeforeEnd(tlvs), 2).Some? && ParsePortId(LastOf(BeforeEnd(tlvs), 2).value, utf8).Some?
    ensures var r := Describe(Decode(EncodeAll(tlvs) + Encode(END) + trailing), interface, utf8);
      r.Some? && r.value.chassisKind.Mac? && RackSlug(r.value) == Hex(mac)
  {
    hide ParsePortId, Hex, EncodeAll, Encode, Decode, BeforeEnd;
    TlvRoundTrip(tlvs, trailing);
    assert ([4] + mac)[1..] == mac;
    MacSlugIsHex(mac);
  }

  /** Switches with different MAC addresses get different racks. */
  lemma MacRacksDiffer(a: Neighbor, b: Neighbor, m: seq<Byte>, n: seq<Byte>)
    requires |m| == 6 && |n| == 6 && m != n
    requires a.chassisKind.Mac? && a.chassisId == MacToString(m)
    requires b.chassisKind.Mac? && b.chassisId == MacToString(n)
    ensures RackSlug(a) != RackSlug(b) && |RackSlug(a)| == 12
  {
    hide MacToString, Hex, WithoutColons;
    MacSlugIsHex(m);
    MacSlugIsHex(n);
    if Hex(m) == Hex(n) {
      HexInjective(m, n);
    }
  }

  lemma {:induction false} HexIsKept(bytes: seq<Byte>)
    ensures forall c | c in Hex(bytes) :: Slug.Kept(c) && Slug.ToLower(c) == c
  {
    if bytes != [] {
      HexIsKept(bytes[..|bytes| - 1]);
      assert Hex(bytes) == Hex(bytes[..|bytes| - 1]) + HexByte(bytes[|bytes| - 1]);
    }
  }

  /** Hex text is its own slug. */
  lemma HexIsASlug(bytes: seq<Byte>)
    ensures Slug.Slug(Hex(bytes)) == Hex(bytes)
  {
    hide Hex, Slug.Kept, Slug.ToLower;
    HexIsKept(bytes);
    var p := Hex(bytes);
    if p == "" {
      Slug.UnknownIsASlug();
    } else {
      Slug.PieceIsASlug(p);
    }
  }

  /** The rack a frame gives, by its last chassis TLV: the slug of a name; of a MAC, and of any other
      kind of id, exactly the bytes in hexadecimal. */
  lemma FrameGivesRack(tlvs: seq<Tlv>, trailing: seq<Byte>, interface: string, utf8: Decoder,
                       subtype: Byte, body: seq<Byte>)
    requires forall t | t in tlvs :: Encodable(t)
    requires LastOf(BeforeEnd(tlvs), 1) == Some([subtype] + body)
    ensures var r := Describe(Decode(EncodeAll(tlvs) + Encode(END) + trailing), interface, utf8);
      r.Some? ==>
        if subtype == 6 || subtype == 7 then utf8(body).Some? && RackSlug(r.value) == Slug.Slug(utf8(body).value)
        else RackSlug(r.value) == Hex(body)
  {
    hide ParseChassisId, ParsePortId, Hex, Decode, EncodeAll, Encode, BeforeEnd, LastOf, Describe, MacToString,
      WithoutColons, Slug.Slug;
    FrameGivesNeighbor(tlvs, trailing, interface, utf8);
    ChassisIdMeaning(subtype, body, utf8);
    HexIsASlug(body);
    if subtype == 4 && |body| == 6 {
      MacSlugIsHex(body);
    }
  }

  // The rack of a host

  /** How often a chassis was seen. */
  function Seen(neighbors: seq<Neighbor>, chassis: string): nat {
    if neighbors == [] then 0
    else
      var k := |neighbors| - 1;
      Seen(neighbors[..k], chassis) + if neighbors[k].chassisId == chassis then 1 else 0
  }

  function First(neighbors: seq<Neighbor>, chassis: string): Option<Neighbor> {
    if neighbors == [] then None
    else if neighbors[0].chassisId == chassis then Some(neighbors[0])
    else First(neighbors[1..], chassis)
  }

  lemma {:induction false} FirstSnoc(neighbors: seq<Neighbor>, n: Neighbor, chassis: string)
    ensures First(neighbors + [n], chassis) ==
      if First(neighbors, chassis).Some? then First(neighbors, chassis)
      else if n.chassisId == chassis then Some(n) else None
    ensures First(neighbors, chassis).Some? ==> First(neighbors, chassis).value in neighbors
    ensures First(neighbors, chassis).Some? ==> First(neighbors, chassis).value.chassisId == chassis
  {
    if neighbors != [] {
      assert (neighbors + [n])[1..] == neighbors[1..] + [n];
      FirstSnoc(neighbors[1..], n, chassis);
    }
  }

  ghost predicate Counted(counts: map<string, (nat, Neighbor)>, neighbors: seq<Neighbor>) {
    && (forall c :: c in counts <==> First(neighbors, c).Some?)
    && (forall c :: c !in counts ==> Seen(neighbors, c) == 0)
    && (forall c | c in counts :: counts[c] == (Seen(neighbors, c), First(neighbors, c).value))
  }

  lemma CountOne(counts: map<string, (nat, Neighbor)>, neighbors: seq<Neighbor>, n: Neighbor)
    requires Counted(counts, neighbors)
    ensures var id := n.chassisId;
      Counted(counts[id := if id in counts then (counts[id].0 + 1, counts[id].1) else (1, n)], neighbors + [n])
  {
    assert (neighbors + [n])[..|neighbors|] == neighbors;
    forall c: string
      ensures First(neighbors + [n], c) ==
        if First(neighbors, c).Some? then First(neighbors, c) else if n.chassisId == c then Some(n) else None
    {
      FirstSnoc(neighbors, n, c);
    }
  }

  /** The first neighbour with a chassis that no other was seen more often than. */
  ghost predicate Dominant(neighbors: seq<Neighbor>, n: Neighbor) {
    && First(neighbors, n.chassisId) == Some(n)
    && forall m | m in neighbors :: Seen(neighbors, m.chassisId) <= Seen(neighbors, n.chassisId)
  }

  /** The rack is the slug of a neighbour whose chassis was seen most often: any such chassis, and
      its first neighbour. */
  method InferRack(neighbors: seq<Neighbor>) returns (r: Option<string>)
    ensures r.None? <==> neighbors == []
    ensures r.Some? ==> exists n :: n in neighbors && r.value == RackSlug(n) && Dominant(neighbors, n)
  {
    hide RackSlug, Seen, First;
    var counts: map<string, (nat, Neighbor)> := map[];
    NothingCounted();
    for i := 0 to |neighbors|
      invariant Counted(counts, neighbors[..i])
    {
      var n := neighbors[i];
      var id := n.chassisId;
      CountOne(counts, neighbors[..i], n);
      assert neighbors[..i] + [n] == neighbors[..i + 1];
      counts := counts[id := if id in counts then (counts[id].0 + 1, counts[id].1) else (1, n)];
    }
    assert neighbors[..|neighbors|] == neighbors;
    AllCounted(counts, neighbors);
    if |counts| == 0 {
      return None;
    }
    var best := MostSeen(counts);
    r := Some(RackSlug(counts[best].1));
    FirstSnoc(neighbors, counts[best].1, best);
  }

  lemma NothingCounted()
    ensures Counted(map[], [])
  {
  }

  lemma AllCounted(counts: map<string, (nat, Neighbor)>, neighbors: seq<Neighbor>)
    requires Counted(counts, neighbors)
    ensures forall n | n in neighbors :: n.chassisId in counts
    ensures |counts| == 0 <==> neighbors == []
  {
    forall n | n in neighbors
      ensures n.chassisId in counts
    {
      SeenAtLeastOnce(neighbors, n);
    }
    if neighbors != [] {
      assert neighbors[0] in neighbors;
    }
  }

  lemma {:induction false} SeenAtLeastOnce(neighbors: seq<Neighbor>, n: Neighbor)
    requires n in neighbors
    ensures Seen(neighbors, n.chassisId) > 0
  {
    var k := |neighbors| - 1;
    if neighbors[k] != n {
      assert neighbors == neighbors[..k] + [neighbors[k]];
      SeenAtLeastOnce(neighbors[..k], n);
    }
  }

  /** `max_by_key` over the map's values, in any order. */
  method MostSeen(counts: map<string, (nat, Neighbor)>) returns (best: string)
    requires |counts| > 0
    ensures best in counts && forall c | c in counts :: counts[c].0 <= counts[best].0
  {
    best :| best in counts;
    var todo := counts.Keys - {best};
    while todo != {}
      invariant todo <= counts.Keys && best in counts
      invariant forall c | c in counts && c !in todo :: counts[c].0 <= counts[best].0
      decreases |todo|
    {
      var c :| c in todo;
      if counts[best].0 <= counts[c].0 {
        best := c;
      }
      todo := todo - {c};
    }
  }
}
