/**
  The vendor command protocol of the Fantech Aria mouse: the lookup tables
  that turn a polling rate or a DPI level into device byte codes, and the
  four fixed-layout feature reports (handshake, commit, polling payload,
  DPI payload) built from them.  Everything here is pure.
*/
module Protocol {

  import opened Wrappers

  /** One byte of a feature report. */
  type Byte = b: int | 0 <= b < 0x100

  /** A feature report as handed to the transport. */
  type Frame = seq<Byte>

  /** Every frame the driver builds has this many bytes. */
  const FrameLength: nat := 17

  /** The sum of a frame's bytes, modulo 256, that its last byte completes. */
  const FrameChecksum: Byte := 0x55

  /** An entry of the polling table: the bytes that go to positions 6 and 7. */
  datatype PollingEntry = PollingEntry(b6: Byte, b7: Byte)

  /** An entry of the DPI table: the `byte` (here `main`) and `aux` codes. */
  datatype DpiEntry = DpiEntry(main: Byte, aux: Byte)

  /** The keys of the polling table, in Hz (125 Hz is not among them). */
  const PollingRates: set<int> := {250, 500, 1000}

  /** The keys of the DPI table. */
  const DpiLevels: set<int> := {800, 1600, 3200, 8000}

  /** The polling table: `None` for a rate the table does not hold. */
  function PollingCode(hz: int): (e: Option<PollingEntry>)
    ensures e.Some? <==> hz in PollingRates
  {
    if hz == 250 then Some(PollingEntry(0x04, 0x51))
    else if hz == 500 then Some(PollingEntry(0x02, 0x53))
    else if hz == 1000 then Some(PollingEntry(0x01, 0x54))
    else None
  }

  /** The DPI table: `None` for a level the table does not hold. */
  function DpiCode(dpi: int): (e: Option<DpiEntry>)
    ensures e.Some? <==> dpi in DpiLevels
  {
    if dpi == 800 then Some(DpiEntry(0x0f, 0x37))
    else if dpi == 1600 then Some(DpiEntry(0x1f, 0x17))
    else if dpi == 3200 then Some(DpiEntry(0x3f, 0xd7))
    else if dpi == 8000 then Some(DpiEntry(0x9f, 0x17))
    else None
  }

  function Zeros(n: nat): (z: seq<Byte>)
    ensures |z| == n && forall i | 0 <= i < n :: z[i] == 0
  {
    seq(n, _ => 0)
  }

  /** The handshake report sent before every configuration write. */
  function HandshakeFrame(): (f: Frame)
    ensures IsConstantLayout(f, 0x03, 0x4a)
  {
    [0x08, 0x03] + Zeros(14) + [0x4a]
  }

  /** The commit report that stores the preceding write in flash. */
  function CommitFrame(): (f: Frame)
    ensures IsConstantLayout(f, 0x04, 0x49)
  {
    [0x08, 0x04] + Zeros(14) + [0x49]
  }

  /** The polling-rate report carrying a table entry. */
  function PollingFrame(e: PollingEntry): (f: Frame)
    ensures IsPollingLayout(f, e)
  {
    [0x08, 0x07, 0x00, 0x00, 0x00, 0x02, e.b6, e.b7] + Zeros(8) + [0xef]
  }

  /** The DPI report (`build_dpi_frame`): `main` is repeated on purpose. */
  function DpiFrame(mainByte: Byte, auxByte: Byte): (f: Frame)
    ensures IsDpiLayout(f, mainByte, auxByte)
  {
    [0x08, 0x07, 0x00, 0x00, 0x0c, 0x04, mainByte, mainByte, 0x00, auxByte] + Zeros(6) + [0xe1]
  }

  /** The payload `aplicar_polling` sends for a rate; `None` where it raises ValueError. */
  function PollingPayload(hz: int): (r: Option<Frame>)
    ensures r.Some? <==> hz in PollingRates
  {
    match PollingCode(hz)
    case None => None
    case Some(e) => Some(PollingFrame(e))
  }

  /** The payload `aplicar_dpi` sends for a level; `None` where it raises ValueError. */
  function DpiPayload(dpi: int): (r: Option<Frame>)
    ensures r.Some? <==> dpi in DpiLevels
  {
    match DpiCode(dpi)
    case None => None
    case Some(e) => Some(DpiFrame(e.main, e.aux))
  }

  // ----- Frame layouts, stated position by position -----

  predicate ZeroBetween(f: Frame, lo: nat, hi: nat)
    requires lo <= hi <= |f|
  {
    forall i | lo <= i < hi :: f[i] == 0
  }

  /** A 17-byte frame with opcode `08 op`, zeros, and the given terminator. */
  predicate IsConstantLayout(f: Frame, op: Byte, terminator: Byte)
  {
    && |f| == FrameLength
    && f[0] == 0x08 && f[1] == op
    && ZeroBetween(f, 2, 16)
    && f[16] == terminator
  }

  predicate IsPollingLayout(f: Frame, e: PollingEntry)
  {
    && |f| == FrameLength
    && f[0] == 0x08 && f[1] == 0x07
    && ZeroBetween(f, 2, 5) && f[5] == 0x02
    && f[6] == e.b6 && f[7] == e.b7
    && ZeroBetween(f, 8, 16)
    && f[16] == 0xef
  }

  predicate IsDpiLayout(f: Frame, mainByte: Byte, auxByte: Byte)
  {
    && |f| == FrameLength
    && f[0] == 0x08 && f[1] == 0x07
    && f[2] == 0x00 && f[3] == 0x00 && f[4] == 0x0c && f[5] == 0x04
    && f[6] == mainByte && f[7] == mainByte
    && f[8] == 0x00 && f[9] == auxByte
    && ZeroBetween(f, 10, 16)
    && f[16] == 0xe1
  }

  /** The handshake frame is exactly the 17-byte frame `08 03 00*14 4a`. */
  lemma HandshakeLayout(f: Frame)
    ensures IsConstantLayout(f, 0x03, 0x4a) <==> f == HandshakeFrame()
  {
    if IsConstantLayout(f, 0x03, 0x4a) {
      assert forall i | 0 <= i < |f| :: f[i] == HandshakeFrame()[i];
    }
  }

  /** The commit frame is exactly the 17-byte frame `08 04 00*14 49`. */
  lemma CommitLayout(f: Frame)
    ensures IsConstantLayout(f, 0x04, 0x49) <==> f == CommitFrame()
  {
    if IsConstantLayout(f, 0x04, 0x49) {
      assert forall i | 0 <= i < |f| :: f[i] == CommitFrame()[i];
    }
  }

  /** The polling frame of an entry is exactly the frame with that layout. */
  lemma PollingLayout(f: Frame, e: PollingEntry)
    ensures IsPollingLayout(f, e) <==> f == PollingFrame(e)
  {
    if IsPollingLayout(f, e) {
      assert forall i | 0 <= i < |f| :: f[i] == PollingFrame(e)[i];
    }
  }

  /** The DPI frame of a pair of codes is exactly the frame with that layout. */
  lemma DpiLayout(f: Frame, mainByte: Byte, auxByte: Byte)
    ensures IsDpiLayout(f, mainByte, auxByte) <==> f == DpiFrame(mainByte, auxByte)
  {
    if IsDpiLayout(f, mainByte, auxByte) {
      assert forall i | 0 <= i < |f| :: f[i] == DpiFrame(mainByte, auxByte)[i];
    }
  }

  /** For every supported rate the payload has the polling layout with the table's pair. */
  lemma PollingPayloadLayout(hz: int)
    requires hz in PollingRates
    ensures PollingPayload(hz).Some? && PollingCode(hz).Some?
    ensures IsPollingLayout(PollingPayload(hz).value, PollingCode(hz).value)
  {
    PollingLayout(PollingPayload(hz).value, PollingCode(hz).value);
  }

  /** For every supported level the payload has the DPI layout with the table's codes. */
  lemma DpiPayloadLayout(dpi: int)
    requires dpi in DpiLevels
    ensures DpiPayload(dpi).Some? && DpiCode(dpi).Some?
    ensures IsDpiLayout(DpiPayload(dpi).value, DpiCode(dpi).value.main, DpiCode(dpi).value.aux)
  {
    var e := DpiCode(dpi).value;
    DpiLayout(DpiPayload(dpi).value, e.main, e.aux);
  }

  /** The four kinds of frame never coincide: the opcode and bytes 4-5 tell them apart. */
  lemma FrameKindsDistinct(e: PollingEntry, mainByte: Byte, auxByte: Byte)
    ensures HandshakeFrame() != CommitFrame()
    ensures HandshakeFrame() != PollingFrame(e) && HandshakeFrame() != DpiFrame(mainByte, auxByte)
    ensures CommitFrame() != PollingFrame(e) && CommitFrame() != DpiFrame(mainByte, auxByte)
    ensures PollingFrame(e) != DpiFrame(mainByte, auxByte)
  {
    assert HandshakeFrame()[1] == 0x03 && CommitFrame()[1] == 0x04;
    assert PollingFrame(e)[1] == 0x07 && PollingFrame(e)[5] == 0x02;
    assert DpiFrame(mainByte, auxByte)[1] == 0x07 && DpiFrame(mainByte, auxByte)[5] == 0x04;
  }

  // ----- The trailing byte as a checksum -----

  function Sum(s: seq<Byte>): nat
  {
    if s == [] then 0 else s[0] as nat + Sum(s[1..])
  }

  /** The bytes of a frame sum to 0x55 modulo 256. */
  predicate ChecksumOk(f: Frame)
  {
    Sum(f) % 0x100 == FrameChecksum
  }

  /** The byte that, appended to `body`, makes the bytes sum to 0x55 modulo 256. */
  function Terminator(body: seq<Byte>): Byte
  {
    (FrameChecksum as int - Sum(body)) % 0x100
  }

  lemma {:induction false} SumAppend(a: seq<Byte>, b: seq<Byte>)
    ensures Sum(a + b) == Sum(a) + Sum(b)
  {
    if a == [] {
      assert a + b == b;
    } else {
      assert (a + b)[1..] == a[1..] + b;
      SumAppend(a[1..], b);
    }
  }

  lemma {:induction false} SumZeros(n: nat)
    ensures Sum(Zeros(n)) == 0
  {
    if n > 0 {
      assert Zeros(n)[1..] == Zeros(n - 1);
      SumZeros(n - 1);
    }
  }

  lemma SumTwo(x: Byte, y: Byte)
    ensures Sum([x, y]) == x as int + y as int
  {
    assert [x, y][1..] == [y] && [y][1..] == [];
    assert Sum([y]) == y as int + Sum([]);
    assert Sum([x, y]) == x as int + Sum([y]);
  }

  /** The sum of four two-byte pieces, one piece at a time. */
  lemma SumPairs(p: seq<Byte>, q: seq<Byte>, r: seq<Byte>, t: seq<Byte>)
    requires |p| == |q| == |r| == |t| == 2
    ensures Sum(p + q + r + t) == Sum(p) + Sum(q) + Sum(r) + Sum(t)
  {
    SumAppend(p + q + r, t);
    SumAppend(p + q, r);
    SumAppend(p, q);
  }

  /** A 17-byte frame passes the checksum exactly when its last byte is the terminator of the first 16. */
  lemma ChecksumIsTerminator(f: Frame)
    requires |f| == FrameLength
    ensures ChecksumOk(f) <==> f[16] == Terminator(f[..16])
  {
    assert f == f[..16] + [f[16]];
    SumAppend(f[..16], [f[16]]);
    assert Sum([f[16]]) == f[16];
  }

  lemma HandshakeSum()
    ensures Sum(HandshakeFrame()) == 0x55 && Sum(CommitFrame()) == 0x55
  {
    SumZeros(14);
    SumAppend([0x08, 0x03] + Zeros(14), [0x4a]);
    SumAppend([0x08, 0x03], Zeros(14));
    SumAppend([0x08, 0x04] + Zeros(14), [0x49]);
    SumAppend([0x08, 0x04], Zeros(14));
  }

  /** The polling frame sums to 256 plus its two code bytes. */
  lemma PollingFrameSum(e: PollingEntry)
    ensures Sum(PollingFrame(e)) == 0x100 + e.b6 as int + e.b7 as int
  {
    var head: seq<Byte> := [0x08, 0x07, 0x00, 0x00, 0x00, 0x02, e.b6, e.b7];
    assert head == [0x08, 0x07] + [0x00, 0x00] + [0x00, 0x02] + [e.b6, e.b7];
    SumPairs([0x08, 0x07], [0x00, 0x00], [0x00, 0x02], [e.b6, e.b7]);
    SumTwo(0x08, 0x07); SumTwo(0x00, 0x00); SumTwo(0x00, 0x02); SumTwo(e.b6, e.b7);
    SumZeros(8);
    SumAppend(head + Zeros(8), [0xef]);
    SumAppend(head, Zeros(8));
  }

  /** The DPI frame sums to 256 plus twice `main` plus `aux`. */
  lemma DpiFrameSum(mainByte: Byte, auxByte: Byte)
    ensures Sum(DpiFrame(mainByte, auxByte)) == 0x100 + 2 * mainByte as int + auxByte as int
  {
    var head: seq<Byte> := [0x08, 0x07, 0x00, 0x00, 0x0c, 0x04, mainByte, mainByte, 0x00, auxByte];
    assert head == [0x08, 0x07] + [0x00, 0x00] + [0x0c, 0x04] + [mainByte, mainByte] + [0x00, auxByte];
    SumPairs([0x08, 0x07], [0x00, 0x00], [0x0c, 0x04], [mainByte, mainByte]);
    SumAppend([0x08, 0x07] + [0x00, 0x00] + [0x0c, 0x04] + [mainByte, mainByte], [0x00, auxByte]);
    SumTwo(0x08, 0x07); SumTwo(0x00, 0x00); SumTwo(0x0c, 0x04);
    SumTwo(mainByte, mainByte); SumTwo(0x00, auxByte);
    SumZeros(6);
    SumAppend(head + Zeros(6), [0xe1]);
    SumAppend(head, Zeros(6));
  }

  /** A polling frame passes the checksum exactly when its code pair sums to 0x55 modulo 256. */
  lemma PollingChecksum(e: PollingEntry)
    ensures ChecksumOk(PollingFrame(e)) <==> (e.b6 as int + e.b7 as int) % 0x100 == FrameChecksum
  {
    PollingFrameSum(e);
  }

  /** A DPI frame passes the checksum exactly when twice `main` plus `aux` is 0x55 modulo 256. */
  lemma DpiChecksum(mainByte: Byte, auxByte: Byte)
    ensures ChecksumOk(DpiFrame(mainByte, auxByte)) <==> (2 * mainByte as int + auxByte as int) % 0x100 == FrameChecksum
  {
    DpiFrameSum(mainByte, auxByte);
  }

  /** The handshake and commit frames pass the checksum. */
  lemma ConstantFramesChecksum()
    ensures ChecksumOk(HandshakeFrame()) && ChecksumOk(CommitFrame())
  {
    HandshakeSum();
  }

  /** For every rate of the table, the polling payload passes the checksum. */
  lemma PollingPayloadChecksum(hz: int)
    requires hz in PollingRates
    ensures PollingPayload(hz).Some? && ChecksumOk(PollingPayload(hz).value)
  {
    var e := PollingCode(hz).value;
    assert (e.b6 as int + e.b7 as int) % 0x100 == FrameChecksum;
    PollingChecksum(e);
  }

  /** For every level of the table, the DPI payload passes the checksum. */
  lemma DpiPayloadChecksum(dpi: int)
    requires dpi in DpiLevels
    ensures DpiPayload(dpi).Some? && ChecksumOk(DpiPayload(dpi).value)
  {
    var e := DpiCode(dpi).value;
    assert (2 * e.main as int + e.aux as int) % 0x100 == FrameChecksum;
    DpiChecksum(e.main, e.aux);
  }
}
