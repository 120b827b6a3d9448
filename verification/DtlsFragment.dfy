/** Handshake messages and fragments on the wire (section 4.2.2 of RFC 6347). */
module DtlsFragment {
  import opened Wrappers
  import opened Words

  const HEADER: nat := 12  // DTLS1_HM_HEADER_LENGTH

  type u16 = x: int | 0 <= x < 0x1_0000
  type u24 = x: int | 0 <= x < 0x100_0000

  datatype Header = Header(typ: byte, msgLen: u24, seqNum: u16, off: u24, len: u24)

  datatype Fragment = Fragment(hdr: Header, body: seq<byte>)

  /** A handshake message before it is cut up. */
  datatype Message = Message(typ: byte, body: seq<byte>)

  function U16(v: u16): (s: seq<byte>)
    ensures |s| == 2
  {
    [v / 256, v % 256]
  }

  function U24(v: u24): (s: seq<byte>)
    ensures |s| == 3
  {
    [v / 0x1_0000, v / 256 % 256, v % 256]
  }

  function ReadU16(a: byte, b: byte): (v: u16)
    ensures U16(v) == [a, b]
  {
    256 * (a as int) + b
  }

  lemma ByteParts(a: byte, b: byte, c: byte)
    ensures var v := 0x1_0000 * (a as int) + 256 * (b as int) + c;
            v / 0x1_0000 == a && v / 256 % 256 == b && v % 256 == c
  {
    var v := 0x1_0000 * (a as int) + 256 * (b as int) + c;
    assert v / 256 == 256 * (a as int) + b;
  }

  function ReadU24(a: byte, b: byte, c: byte): (v: u24)
    ensures U24(v) == [a, b, c]
  {
    ByteParts(a, b, c);
    0x1_0000 * (a as int) + 256 * (b as int) + c
  }

  /** Numbers go with the high byte first, and are read back so. */
  lemma HighByteFirst(v: u24, w: u16, a: byte, b: byte, c: byte)
    ensures 0x1_0000 * (U24(v)[0] as int) + 256 * (U24(v)[1] as int) + U24(v)[2] == v
    ensures 256 * (U16(w)[0] as int) + U16(w)[1] == w
    ensures ReadU24(a, b, c) == 0x1_0000 * (a as int) + 256 * (b as int) + c
    ensures ReadU16(a, b) == 256 * (a as int) + b
  {}

  function EncHeader(h: Header): (s: seq<byte>)
    ensures |s| == HEADER
  {
    [h.typ] + U24(h.msgLen) + U16(h.seqNum) + U24(h.off) + U24(h.len)
  }

  function EncFragment(f: Fragment): (s: seq<byte>)
    ensures |s| == HEADER + |f.body|
  {
    EncHeader(f.hdr) + f.body
  }

  /** The header at the front of `s`. */
  function HeaderOf(s: seq<byte>): (h: Header)
    requires |s| >= HEADER
  {
    Header(s[0],
           ReadU24(s[1], s[2], s[3]), ReadU16(s[4], s[5]),
           ReadU24(s[6], s[7], s[8]), ReadU24(s[9], s[10], s[11]))
  }

  /** dtls1_parse_fragment: a fragment and the bytes after it. */
  function ParseFragment(s: seq<byte>): (r: Option<(Fragment, seq<byte>)>)
    ensures r.Some? ==> |r.value.1| < |s| && |r.value.0.body| == r.value.0.hdr.len
  {
    if |s| < HEADER || |s| - HEADER < HeaderOf(s).len then None
    else
      var h := HeaderOf(s);
      Some((Fragment(h, s[HEADER..HEADER + h.len]), s[HEADER + h.len..]))
  }

  lemma HeaderRoundTrip(h: Header, rest: seq<byte>)
    ensures HeaderOf(EncHeader(h) + rest) == h
  {
    hide U16, U24, ReadU16, ReadU24;
    ReadBack(h.msgLen, h.seqNum);
    ReadBack(h.off, h.seqNum);
    ReadBack(h.len, h.seqNum);
  }

  lemma ReadBack(v: u24, w: u16)
    ensures ReadU24(U24(v)[0], U24(v)[1], U24(v)[2]) == v
    ensures ReadU16(U16(w)[0], U16(w)[1]) == w
  {}

  lemma HeaderInverse(s: seq<byte>)
    requires |s| >= HEADER
    ensures EncHeader(HeaderOf(s)) == s[..HEADER]
  {
    hide U16, U24, ReadU16, ReadU24;
    assert s[..HEADER] == [s[0]] + [s[1], s[2], s[3]] + [s[4], s[5]] + [s[6], s[7], s[8]] + [s[9], s[10], s[11]];
  }

  /** Parsing gives back a fragment that was written. */
  lemma FragmentRoundTrip(f: Fragment, rest: seq<byte>)
    requires |f.body| == f.hdr.len
    ensures ParseFragment(EncFragment(f) + rest) == Some((f, rest))
  {
    var s := EncFragment(f) + rest;
    assert s == EncHeader(f.hdr) + (f.body + rest);
    HeaderRoundTrip(f.hdr, f.body + rest);
  }

  /** What parses is what the writer would have produced. */
  lemma FragmentInverse(s: seq<byte>)
    requires ParseFragment(s).Some?
    ensures var (f, rest) := ParseFragment(s).value; s == EncFragment(f) + rest
  {
    HeaderInverse(s);
  }

  /** A message as one unfragmented fragment: what dtls1_init_message and
      dtls1_finish_message build and the sender keeps. */
  function Whole(m: Message, seqNum: u16): (f: Fragment)
    requires |m.body| < 0x100_0000
  {
    Fragment(Header(m.typ, |m.body|, seqNum, 0, |m.body|), m.body)
  }

  /** `f` is a piece of message `f.hdr.seqNum` of `sent`. */
  predicate Genuine(sent: seq<Message>, f: Fragment) {
    && f.hdr.seqNum < |sent|
    && f.hdr.typ == sent[f.hdr.seqNum].typ
    && f.hdr.msgLen == |sent[f.hdr.seqNum].body|
    && f.hdr.off + f.hdr.len <= f.hdr.msgLen
    && f.body == sent[f.hdr.seqNum].body[f.hdr.off..f.hdr.off + f.hdr.len]
  }

  /** Fragments laid end to end in one record. */
  function EncFragments(fs: seq<Fragment>): seq<byte> {
    if fs == [] then [] else EncFragment(fs[0]) + EncFragments(fs[1..])
  }
}
