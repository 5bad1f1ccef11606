/**
 Fragmentation of a UDP datagram into Ethernet frames (broadcast_relay.c, section 3.2 of RFC 791).
 */
module Fragments {

  type Byte = x: int | 0 <= x < 256
  type Half = x: int | 0 <= x < 0x1_0000
  type Address = x: int | 0 <= x < 0x1_0000_0000
  type Mac = s: seq<Byte> | |s| == 6 witness [0, 0, 0, 0, 0, 0]

  const STEP: int := 1480

  /** One fragment of an IP payload. */
  datatype Fragment = Fragment(offset: nat, more: bool, data: seq<Byte>)

  function Pair(h: Half): seq<Byte> { [h / 256, h % 256] }

  function Quad(a: Address): seq<Byte> {
    var b := a / 256;
    var c := b / 256;
    [c / 256, c % 256, b % 256, a % 256]
  }

  // ---- cutting ----

  /** The IP payload: UDP header without checksum, then the data. */
  function Datagram(from: Half, to: Half, payload: seq<Byte>): seq<Byte>
    requires |payload| <= 65507
  {
    Pair(from) + Pair(to) + Pair(8 + |payload|) + [0, 0] + payload
  }

  function PieceLength(total: int, offset: nat): int { if total - offset > STEP then STEP else total - offset }

  function Piece(d: seq<Byte>, offset: nat): Fragment
    requires offset < |d|
  {
    var n := PieceLength(|d|, offset);
    Fragment(offset, offset + n < |d|, d[offset..offset + n])
  }

  /** The fragments from `offset` on. */
  function Pieces(d: seq<Byte>, offset: nat): seq<Fragment>
    requires offset <= |d|
    decreases |d| - offset
  {
    if offset == |d| then [] else [Piece(d, offset)] + Pieces(d, offset + PieceLength(|d|, offset))
  }

  function Count(total: int): int { (total + STEP - 1) / STEP }

  /** `fs` is a cut of `d` from `offset` on: no gap, no overlap, offsets in units of eight, More Fragments on all but the last. */
  predicate Tiles(fs: seq<Fragment>, d: seq<Byte>, offset: nat)
    decreases |fs|
  {
    if fs == [] then offset == |d|
    else
      var f := fs[0];
      && f.offset == offset && offset % 8 == 0 && 0 < |f.data| && offset + |f.data| <= |d|
      && f.data == d[offset..offset + |f.data|]
      && (f.more <==> |fs| > 1)
      && Tiles(fs[1..], d, offset + |f.data|)
  }

  lemma {:induction false} PiecesTile(d: seq<Byte>, offset: nat)
    requires offset <= |d| && offset % STEP == 0
    ensures Tiles(Pieces(d, offset), d, offset)
    ensures |Pieces(d, offset)| == Count(|d| - offset)
    ensures forall i :: 0 <= i < |Pieces(d, offset)| ==> |Pieces(d, offset)[i].data| <= STEP
    decreases |d| - offset
  {
    hide Piece;
    if offset < |d| {
      var n := PieceLength(|d|, offset);
      var f := Piece(d, offset);
      PieceIs(d, offset);
      if n < STEP {
        assert Pieces(d, offset + n) == [];
      } else {
        PiecesTile(d, offset + n);
        OneMore(|d| - offset);
      }
      assert Pieces(d, offset)[1..] == Pieces(d, offset + n);
    }
  }

  lemma PieceIs(d: seq<Byte>, offset: nat)
    requires offset < |d| && offset % STEP == 0
    ensures var n := PieceLength(|d|, offset);
            Piece(d, offset) == Fragment(offset, offset + n < |d|, d[offset..offset + n]) && 0 < n <= STEP && offset % 8 == 0
  {
  }

  lemma OneMore(left: int)
    requires left >= STEP
    ensures Count(left) == Count(left - STEP) + 1
  {
  }

  /** Put together again. */
  function Glued(fs: seq<Fragment>): seq<Byte> { if fs == [] then [] else fs[0].data + Glued(fs[1..]) }

  lemma {:induction false} TilesGlue(fs: seq<Fragment>, d: seq<Byte>, offset: nat)
    requires Tiles(fs, d, offset)
    ensures offset <= |d| && Glued(fs) == d[offset..]
    decreases |fs|
  {
    if fs != [] {
      TilesGlue(fs[1..], d, offset + |fs[0].data|);
    }
  }

  // ---- headers ----

  /** The sum of the sixteen-bit words of a header. */
  function Sum16(hdr: seq<Byte>): nat
    requires |hdr| % 2 == 0
    decreases |hdr|
  {
    if hdr == [] then 0 else hdr[0] * 256 + hdr[1] + Sum16(hdr[2..])
  }

  function Fold(s: nat): (r: int)
    ensures 0 <= r < 0x1_0000
    decreases s
  {
    if s < 0x1_0000 then s else Fold(s % 0x1_0000 + s / 0x1_0000)
  }

  /** Folding keeps the value modulo 65535, and only zero folds to zero. */
  lemma {:induction false} FoldIs(s: nat)
    ensures Fold(s) % 65535 == s % 65535 && (s > 0 ==> Fold(s) > 0)
    decreases s
  {
    if s >= 0x1_0000 {
      var t := s % 0x1_0000 + s / 0x1_0000;
      assert s == t + 65535 * (s / 0x1_0000);
      SameMod(t, s / 0x1_0000, s);
      FoldIs(t);
    }
  }

  lemma SameMod(t: int, k: int, s: int)
    requires s == t + 65535 * k
    ensures t % 65535 == s % 65535
  {
  }

  function Checksum(hdr: seq<Byte>): Half
    requires |hdr| % 2 == 0
  {
    0xffff - Fold(Sum16(hdr))
  }

  /** ip_checksum(). */
  method IpChecksum(hdr: seq<Byte>) returns (c: Half)
    requires |hdr| % 2 == 0
    ensures c == Checksum(hdr)
  {
    hide Fold;
    var sum: nat, i := 0, 0;
    while i < |hdr|
      invariant 0 <= i <= |hdr| && i % 2 == 0 && sum + Sum16(hdr[i..]) == Sum16(hdr)
    {
      assert hdr[i..][2..] == hdr[i + 2..];
      var high: int, low: int := hdr[i], hdr[i + 1];
      sum := sum + high * 256 + low;
      i := i + 2;
    }
    while sum >= 0x1_0000
      invariant Fold(sum) == Fold(Sum16(hdr))
      decreases sum
    {
      FoldStep(sum);
      sum := sum % 0x1_0000 + sum / 0x1_0000;
    }
    FoldStep(sum);
    c := 0xffff - sum;
  }

  lemma FoldStep(s: nat)
    ensures Fold(s) == if s < 0x1_0000 then s else Fold(s % 0x1_0000 + s / 0x1_0000)
  {
  }

  /** What all fragments of a datagram have in common. */
  datatype Route = Route(dstMac: Mac, srcMac: Mac, src: Address, dst: Address, id: Half)

  function FragmentField(f: Fragment): Half { f.offset / 8 % 0x2000 + if f.more then 0x2000 else 0 }

  /** The fields of an IP header with a given checksum field. */
  function IpHeader(r: Route, f: Fragment, sum: Half): (h: seq<Byte>)
    requires |f.data| <= STEP
    ensures |h| == 20
  {
    [0x45, 0] + Pair(20 + |f.data|) + Pair(r.id) + Pair(FragmentField(f)) + [64, 17] + Pair(sum) + Quad(r.src) + Quad(r.dst)
  }

  function Header(r: Route, f: Fragment): seq<Byte>
    requires |f.data| <= STEP
  {
    IpHeader(r, f, Checksum(IpHeader(r, f, 0)))
  }

  function Frame(r: Route, f: Fragment): seq<Byte>
    requires |f.data| <= STEP
  {
    r.dstMac + r.srcMac + [8, 0] + Header(r, f) + f.data
  }

  function Joined(high: Byte, low: Byte): int { high * 256 + low }

  lemma PairJoins(h: Half)
    ensures Joined(Pair(h)[0], Pair(h)[1]) == h
  {
  }

  lemma {:induction false} SumAppend(a: seq<Byte>, b: seq<Byte>)
    requires |a| % 2 == 0 && |b| % 2 == 0
    ensures Sum16(a + b) == Sum16(a) + Sum16(b)
    decreases |a|
  {
    if a == [] {
      assert a + b == b;
    } else {
      assert (a + b)[2..] == a[2..] + b;
      SumAppend(a[2..], b);
    }
  }

  lemma SumPair(h: Half)
    ensures Sum16(Pair(h)) == h
  {
    assert Pair(h)[2..] == [];
  }

  /** The header a receiver gets adds up to all ones. */
  lemma HeaderVerifies(r: Route, f: Fragment)
    requires |f.data| <= STEP
    ensures Fold(Sum16(Header(r, f))) == 0xffff
  {
    hide Pair; hide Quad; hide Sum16; hide Fold; hide FragmentField;
    var ck := Checksum(IpHeader(r, f, 0));
    var s := Sum16(IpHeader(r, f, 0));
    HeaderSum(r, f, 0);
    HeaderSum(r, f, ck);
    assert Sum16(Header(r, f)) == s + ck;
    FoldIs(s);
    FoldIs(s + ck);
    assert ck == 0xffff - Fold(s);
    AllOnes(s, Fold(s), Fold(s + ck));
  }

  lemma AllOnes(s: nat, f: int, g: int)
    requires 0 <= f < 0x1_0000 && f % 65535 == s % 65535
    requires 0 < g < 0x1_0000 && g % 65535 == (s + 0xffff - f) % 65535
    ensures g == 0xffff
  {
  }

  /** The checksum field is one of the words added up, and another is not zero. */
  lemma HeaderSum(r: Route, f: Fragment, sum: Half)
    requires |f.data| <= STEP
    ensures Sum16(IpHeader(r, f, sum)) == Sum16(IpHeader(r, f, 0)) + sum && Sum16(IpHeader(r, f, 0)) > 0
  {
    hide Sum16; hide FragmentField;
    var a := [0x45, 0] + Pair(20 + |f.data|) + Pair(r.id) + Pair(FragmentField(f)) + [64, 17];
    var b := Quad(r.src) + Quad(r.dst);
    SumThree(a, sum, b);
    SumThree(a, 0, b);
    assert IpHeader(r, f, sum) == a + Pair(sum) + b;
    assert IpHeader(r, f, 0) == a + Pair(0) + b;
    FirstWord(a);
  }

  lemma SumThree(a: seq<Byte>, h: Half, b: seq<Byte>)
    requires |a| % 2 == 0 && |b| % 2 == 0
    ensures Sum16(a + Pair(h) + b) == Sum16(a) + h + Sum16(b)
  {
    hide Sum16;
    SumAppend(a + Pair(h), b);
    SumAppend(a, Pair(h));
    SumPair(h);
  }

  lemma FirstWord(a: seq<Byte>)
    requires |a| % 2 == 0 && |a| > 0 && a[0] == 0x45
    ensures Sum16(a) > 0
  {
  }

  // ---- reading a frame ----

  /** What broadcast_relay_tx() reads from a frame. */
  datatype Packet = Packet(src: Address, dst: Address, id: Half, f: Fragment)

  /** The fields relay_tx_fragment() works on, from the IP header on. */
  function Parse(ip: seq<Byte>): Packet
    requires |ip| >= 20 && |ip| >= ip[0] % 16 * 4
  {
    var hdrLen := ip[0] % 16 * 4;
    var field := Joined(ip[6], ip[7]);
    var len := Joined(ip[2], ip[3]) - hdrLen;
    var rest := ip[hdrLen..];
    Packet(Joined4(ip[12], ip[13], ip[14], ip[15]), Joined4(ip[16], ip[17], ip[18], ip[19]), Joined(ip[4], ip[5]),
           Fragment(field % 0x2000 * 8, field / 0x2000 % 2 == 1, if len <= 0 || len > |rest| then rest else rest[..len]))
  }

  function Joined4(a: Byte, b: Byte, c: Byte, d: Byte): Address { a * 0x100_0000 + b * 0x1_0000 + c * 0x100 + d }

  lemma QuadJoins(a: Address)
    ensures Joined4(Quad(a)[0], Quad(a)[1], Quad(a)[2], Quad(a)[3]) == a
  {
    var b: int := a / 256;
    var c: int := b / 256;
    assert a == 256 * b + a % 256 && b == 256 * c + b % 256 && c == 256 * (c / 256) + c % 256;
  }

  lemma FieldReads(f: Fragment)
    requires f.offset % 8 == 0 && f.offset < 0x1_0000
    ensures FragmentField(f) % 0x2000 * 8 == f.offset && (FragmentField(f) / 0x2000 % 2 == 1 <==> f.more)
  {
  }

  /** A frame is read back as the fragment it was made from, with or without padding. */
  lemma ParseFrame(r: Route, f: Fragment, padding: seq<Byte>)
    requires |f.data| <= STEP && f.offset % 8 == 0 && f.offset < 0x1_0000 && f.data != []
    ensures |Frame(r, f)| >= 34
    ensures Parse((Frame(r, f) + padding)[14..]) == Packet(r.src, r.dst, r.id, f)
  {
    hide IpHeader; hide Parse; hide Checksum;
    var ip := (Frame(r, f) + padding)[14..];
    assert ip == Header(r, f) + f.data + padding;
    ParseParts(r, f, Checksum(IpHeader(r, f, 0)), ip);
  }

  /** The fields of a header, read where broadcast_relay_tx() reads them. */
  lemma HeaderFields(r: Route, f: Fragment, sum: Half)
    requires |f.data| <= STEP && f.offset % 8 == 0 && f.offset < 0x1_0000
    ensures var h := IpHeader(r, f, sum);
            && h[0] == 0x45 && Joined(h[2], h[3]) == 20 + |f.data| && Joined(h[4], h[5]) == r.id
            && Joined(h[6], h[7]) == FragmentField(f)
            && Joined4(h[12], h[13], h[14], h[15]) == r.src && Joined4(h[16], h[17], h[18], h[19]) == r.dst
  {
    hide Joined; hide Joined4; hide FragmentField;
    PairJoins(20 + |f.data|);
    PairJoins(r.id);
    PairJoins(FragmentField(f));
    QuadJoins(r.src);
    QuadJoins(r.dst);
  }

  lemma ParseParts(r: Route, f: Fragment, sum: Half, ip: seq<Byte>)
    requires |f.data| <= STEP && f.offset % 8 == 0 && f.offset < 0x1_0000 && f.data != []
    requires |ip| >= 20 + |f.data| && ip[..20] == IpHeader(r, f, sum) && ip[20..][..|f.data|] == f.data
    ensures ip[0] == 0x45 && Parse(ip) == Packet(r.src, r.dst, r.id, f)
  {
    hide IpHeader; hide Joined; hide Joined4; hide FragmentField;
    HeaderFields(r, f, sum);
    FieldReads(f);
    var h := ip[..20];
    assert forall i :: 0 <= i < 20 ==> ip[i] == h[i];
  }

  // ---- the fragmenter ----

  /** The UDP header of a datagram, as the first fragment carries it. */
  function UdpHeader(from: Half, to: Half, n: int): seq<Byte>
    requires 0 <= n <= 65507
  {
    Pair(from) + Pair(to) + Pair(8 + n) + [0, 0]
  }

  function Frames(r: Route, fs: seq<Fragment>): seq<seq<Byte>>
    requires forall i :: 0 <= i < |fs| ==> |fs[i].data| <= STEP
  {
    seq(|fs|, i requires 0 <= i < |fs| => Frame(r, fs[i]))
  }

  /** The data of one fragment, as the source puts it together. */
  method CutOne(from: Half, to: Half, payload: seq<Byte>, offset: nat) returns (f: Fragment)
    requires |payload| <= 65507 && offset < 8 + |payload| && offset % STEP == 0
    ensures |Datagram(from, to, payload)| == 8 + |payload| && f == Piece(Datagram(from, to, payload), offset)
  {
    hide UdpHeader; hide Datagram;
    DatagramIs(from, to, payload);
    var total := 8 + |payload|;
    var n := total - offset;
    if n > STEP { n := STEP; }
    var last := offset + n >= total;
    var data;
    if offset == 0 {
      data := UdpHeader(from, to, |payload|) + payload[..n - 8];
    } else {
      data := payload[offset - 8..offset - 8 + n];
    }
    f := Fragment(offset, !last, data);
    ghost var d := Datagram(from, to, payload);
    assert data == d[offset..offset + n];
  }

  lemma FramesStep(r: Route, ps: seq<Fragment>, c: nat)
    requires c < |ps| && forall i :: 0 <= i < |ps| ==> |ps[i].data| <= STEP
    ensures Frames(r, ps[..c + 1]) == Frames(r, ps[..c]) + [Frame(r, ps[c])]
  {
    hide Frame;
    assert ps[..c + 1] == ps[..c] + [ps[c]];
  }

  lemma FramesPrefix(r: Route, ps: seq<Fragment>, c: nat)
    requires c <= |ps| && forall i :: 0 <= i < |ps| ==> |ps[i].data| <= STEP
    ensures |Frames(r, ps)| == |ps| && |Frames(r, ps[..c])| == c && Frames(r, ps[..c]) <= Frames(r, ps)
  {
    hide Frame;
  }

  /**
   inject_fragmented_udp(). The queue has room for `space` frames and takes the first `accepts` of
   those offered.
   */
  method InjectFragmented(r: Route, from: Half, to: Half, payload: seq<Byte>, space: nat, accepts: nat)
    returns (frames: seq<seq<Byte>>, count: nat)
    requires |payload| <= 65507
    ensures forall i :: 0 <= i < |Pieces(Datagram(from, to, payload), 0)| ==> |Pieces(Datagram(from, to, payload), 0)[i].data| <= STEP
    ensures var all := Frames(r, Pieces(Datagram(from, to, payload), 0));
            && count == |frames| && frames <= all
            && (space < |all| ==> frames == [])
            && (space >= |all| ==> |frames| == if accepts < |all| then accepts else |all|)
  {
    hide Frame; hide Datagram; hide Pieces; hide Frames; hide Piece; hide Tiles; hide UdpHeader;
    ghost var d := Datagram(from, to, payload);
    ghost var ps := Pieces(d, 0);
    DatagramIs(from, to, payload);
    PiecesTile(d, 0);
    FramesPrefix(r, ps, 0);
    frames, count := [], 0;
    var total := 8 + |payload|;
    if space < (total + STEP - 1) / STEP { return; }
    var offset := 0;
    while offset < total
      invariant 0 <= offset <= total && count <= accepts && (offset < total ==> offset % STEP == 0)
      invariant count <= |ps| && ps[count..] == Pieces(d, offset) && frames == Frames(r, ps[..count])
    {
      PiecesUnfold(d, offset);
      FramesPrefix(r, ps, count);
      var f := CutOne(from, to, payload, offset);
      PieceIs(d, offset);
      assert ps[count] == f && ps[count + 1..] == ps[count..][1..];
      if count >= accepts { return; }
      FramesStep(r, ps, count);
      frames := frames + [Frame(r, f)];
      count := count + 1;
      offset := offset + |f.data|;
    }
    PiecesUnfold(d, offset);
    FramesPrefix(r, ps, count);
  }

  lemma PiecesUnfold(d: seq<Byte>, offset: nat)
    requires offset <= |d|
    ensures Pieces(d, offset) == if offset == |d| then [] else [Piece(d, offset)] + Pieces(d, offset + PieceLength(|d|, offset))
  {
    hide Piece;
  }

  lemma DatagramIs(from: Half, to: Half, payload: seq<Byte>)
    requires |payload| <= 65507
    ensures Datagram(from, to, payload) == UdpHeader(from, to, |payload|) + payload && |UdpHeader(from, to, |payload|)| == 8
  {
  }
}
