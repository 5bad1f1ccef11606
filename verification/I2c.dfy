/**
 The I2C serialiser and the PCF8583 clock/RAM chip behind it (cmos.c): a state machine driven
 by the levels of two pins, against the register transactions those pins carry out.
 */
module I2c {
  import Words


  type Byte = x: int | 0 <= x < 256
  type Ram = r: seq<Byte> | |r| == 256 witness seq(256, _ => 0)

  /** The host's clock in the chip's registers 1 to 6, as cmosgettime() writes them. */
  type Clock = t: seq<Byte> | |t| == 6 witness seq(6, _ => 0)

  datatype Phase = Idle | Addr | AckRead | AckReadAddr | AckWrite | NackWrite | Read | Write | Wait
  datatype Slave = NoSlave | Pcf | Spd

  /**
   The chips on the bus. PCF8583: contents, register address, and whether the address byte comes
   next. The memory module's identification ROM: contents and pointer.
   */
  datatype Chips = Chips(hasPcf: bool, ram: Ram, reg: Byte, wantsReg: bool, hasSpd: bool, rom: Rom, pointer: Pointer)

  type Rom = r: seq<Byte> | |r| == 128 witness seq(128, _ => 0)
  type Pointer = x: int | 0 <= x < 128

  /** The serialiser and its two output lines; the last pin levels are kept apart. */
  datatype Bus = Bus(
    phase: Phase, bitcount: int, slave: Slave, inbuf: Byte, outbuf: Byte, clock: bool, data: bool, chips: Chips,
    bug: bool)      // one of the source's "Bug" branches has been reached

  // ---- the chips ----

  function WithClock(ram: Ram, now: Clock): Ram { ram[..1] + now + ram[7..] }

  function ChipStart(c: Chips, slave: Slave): Chips { if slave == Pcf then c.(wantsReg := true) else c }

  function ChipWrite(c: Chips, slave: Slave, v: Byte): Chips {
    if slave != Pcf then c.(pointer := v % 128)
    else if c.wantsReg then c.(reg := v, wantsReg := false)
    else c.(ram := c.ram[c.reg := v], reg := (c.reg + 1) % 256)
  }

  /** The byte a chip puts out, and the chip afterwards. */
  function ChipRead(c: Chips, slave: Slave, now: Clock): (Byte, Chips) {
    if slave != Pcf then (c.rom[c.pointer], c.(pointer := (c.pointer + 1) % 128))
    else
      var ram := if c.reg < 16 then WithClock(c.ram, now) else c.ram;
      (ram[c.reg], c.(ram := ram, reg := (c.reg + 1) % 256))
  }

  // ---- bits of a byte ----

  /** `v` without its bottom `k` bits. */
  function Top(v: nat, k: nat): nat { if k == 0 then v else Top(v, k - 1) / 2 }

  predicate BitOf(v: nat, k: nat) { Top(v, k) % 2 == 1 }

  function ShiftIn(v: Byte, bit: bool): Byte { (2 * v + if bit then 1 else 0) % 256 }

  // ---- what a change of the pins means ----

  datatype Event = Start | Stop | Rise(bit: bool) | Fall(now: Clock) | Nothing

  function Edge(oldScl: bool, oldSda: bool, scl: bool, sda: bool, now: Clock): Event {
    if scl && oldSda && !sda then Start
    else if scl && !oldSda && sda then Stop
    else if oldScl && !scl then Fall(now)
    else if !oldScl && scl then Rise(sda)
    else Nothing
  }

  function Reset(b: Bus): Bus {
    b.(phase := Idle, bitcount := 0, slave := NoSlave, inbuf := 0, outbuf := 0, clock := true, data := true)
  }

  /** The eighth address bit: find the chip and start it, or go back to sleep. */
  function Select(b: Bus): Bus {
    var address := b.inbuf / 2;
    var slave := if address == 0x50 && b.chips.hasPcf then Pcf else if address == 0x54 && b.chips.hasSpd then Spd else NoSlave;
    if slave == NoSlave then Reset(b)
    else b.(phase := if b.inbuf % 2 == 1 then AckReadAddr else AckWrite, slave := slave,
            chips := ChipStart(b.chips, slave), clock := true, data := true)
  }

  /** The next byte to put out. */
  function Fetch(b: Bus, now: Clock): Bus {
    var (v, chips) := ChipRead(b.chips, b.slave, now);
    b.(outbuf := v, chips := chips)
  }

  function OnRise(b: Bus, sda: bool): Bus
  {
    match b.phase
    case Addr =>
      var b1 := b.(bitcount := b.bitcount + 1, inbuf := ShiftIn(b.inbuf, sda));
      if b1.bitcount == 8 then Select(b1) else b1
    case AckReadAddr => b.(phase := Read, bitcount := 8)
    case AckRead =>
      if b.slave == NoSlave then b.(bug := true)
      else if sda then b.(phase := Wait, bug := b.bug || !b.data)
      else b.(phase := Read, bitcount := 8)
    case AckWrite => b.(phase := Write, bitcount := 0, inbuf := 0)
    case NackWrite => b.(phase := Write, bitcount := 0, inbuf := 0)
    case Read => if b.bitcount == 0 then b.(phase := AckRead) else b
    case Write =>
      var b1 := b.(bitcount := b.bitcount + 1, inbuf := ShiftIn(b.inbuf, sda));
      if b1.bitcount != 8 then b1
      else if b.slave == NoSlave then b1.(bug := true)
      else b1.(chips := ChipWrite(b1.chips, b1.slave, b1.inbuf), phase := AckWrite, clock := true)
    case Idle => b.(clock := true, data := true)
    case Wait => b
  }

  function OnFall(b: Bus, now: Clock): Bus
  {
    match b.phase
    case AckReadAddr => b.(clock := true, data := false)
    case AckWrite => b.(clock := true, data := false)
    case Read =>
      if b.slave == NoSlave then b.(bug := true)     // the source follows a null pointer
      else
        var b1 := if b.bitcount == 8 then Fetch(b, now) else b;
        if b1.bitcount > 0 then
          b1.(bitcount := b1.bitcount - 1, clock := true, data := BitOf(b1.outbuf, b1.bitcount - 1))
        else b1.(bug := true)
    case Wait => b
    case _ => b.(clock := true, data := true)
  }

  /** The effect of one event. */
  function React(b: Bus, e: Event): Bus
  {
    match e
    case Start => Reset(b).(phase := Addr)
    case Stop => Reset(b.(chips := ChipStart(b.chips, b.slave)))
    case Rise(bit) => OnRise(b, bit)
    case Fall(now) => OnFall(b, now)
    case Nothing => if b.phase == Idle then b.(clock := true, data := true) else b
  }

  // ---- the machine as the source writes it ----

  /** The switch of cmosi2cchange() on the state, once start and stop are dealt with. */
  method Clocked(b: Bus, fell: bool, rose: bool, sda: bool, now: Clock) returns (n: Bus)
    requires !(fell && rose)
    ensures n == if fell then OnFall(b, now) else if rose then OnRise(b, sda) else React(b, Nothing)
  {
    hide Fetch; hide ChipWrite; hide Select; hide Reset; hide ShiftIn; hide BitOf;
    n := b;
    match b.phase {
      case Idle =>
        n := n.(clock := true, data := true);
      case Addr =>
        if fell {
          n := n.(clock := true, data := true);
        } else if rose {
          n := n.(bitcount := n.bitcount + 1, inbuf := ShiftIn(n.inbuf, sda));
          if n.bitcount == 8 { n := Select(n); }
        }
      case AckReadAddr =>
        if fell {
          n := n.(clock := true, data := false);
        } else if rose {
          n := n.(phase := Read, bitcount := 8);
        }
      case AckRead =>
        if fell {
          n := n.(clock := true, data := true);
        } else if rose {
          if n.slave == NoSlave {
            n := n.(bug := true);
          } else if sda {
            n := n.(phase := Wait);
            if !n.data { n := n.(bug := true); }
          } else {
            n := n.(phase := Read, bitcount := 8);
          }
        }
      case AckWrite =>
        if fell {
          n := n.(clock := true, data := false);
        } else if rose {
          n := n.(phase := Write, bitcount := 0, inbuf := 0);
        }
      case NackWrite =>
        if fell {
          n := n.(clock := true, data := true);
        } else if rose {
          n := n.(phase := Write, bitcount := 0, inbuf := 0);
        }
      case Read =>
        if fell {
          if n.slave == NoSlave {
            n := n.(bug := true);
          } else {
            if n.bitcount == 8 { n := Fetch(n, now); }
            if n.bitcount > 0 {
              n := n.(bitcount := n.bitcount - 1, clock := true);
              n := n.(data := BitOf(n.outbuf, n.bitcount));
            } else {
              n := n.(bug := true);
            }
          }
        } else if rose {
          if n.bitcount == 0 { n := n.(phase := AckRead); }
        }
      case Write =>
        if fell {
          n := n.(clock := true, data := true);
        } else if rose {
          n := n.(bitcount := n.bitcount + 1, inbuf := ShiftIn(n.inbuf, sda));
          if n.bitcount == 8 {
            if n.slave == NoSlave {
              n := n.(bug := true);
            } else {
              n := n.(chips := ChipWrite(n.chips, n.slave, n.inbuf));
              n := n.(phase := AckWrite, clock := true);
            }
          }
        }
      case Wait =>
    }
  }

  class Serdes {
    var b: Bus
    var oldScl: bool
    var oldSda: bool

    /** reseti2c(): the last pin levels are whatever they were. */
    constructor (b: Bus, oldScl: bool, oldSda: bool)
      ensures this.b == Reset(b) && this.oldScl == oldScl && this.oldSda == oldSda
    {
      this.b := Reset(b);
      this.oldScl, this.oldSda := oldScl, oldSda;
    }

    /** cmosi2cchange(). */
    method Change(scl: bool, sda: bool, now: Clock)
      modifies this
      ensures b == React(old(b), Edge(old(oldScl), old(oldSda), scl, sda, now))
      ensures oldScl == scl && oldSda == sda
    {
      hide Fetch; hide ChipWrite; hide Select; hide Reset; hide ShiftIn; hide BitOf;
      var fell, rose := oldScl && !scl, !oldScl && scl;
      if scl && oldSda && !sda {
        b := Reset(b);
        b := b.(phase := Addr);
        oldScl, oldSda := scl, sda;
        return;
      }
      if scl && !oldSda && sda {
        if b.slave == Pcf { b := b.(chips := b.chips.(wantsReg := true)); }
        b := Reset(b);
        oldScl, oldSda := scl, sda;
        return;
      }
      b := Clocked(b, fell, rose, sda, now);
      oldScl, oldSda := scl, sda;
    }
  }

  // ---- every run ----

  datatype Pins = Pins(scl: bool, sda: bool, now: Clock)

  /** The bus after any sequence of pin levels. */
  function RunPins(b: Bus, oldScl: bool, oldSda: bool, pins: seq<Pins>): Bus
    decreases |pins|
  {
    if pins == [] then b
    else
      var p := pins[0];
      RunPins(React(b, Edge(oldScl, oldSda, p.scl, p.sda, p.now)), p.scl, p.sda, pins[1..])
  }

  /** What holds between any two changes of the pins. */
  predicate Sound(b: Bus, oldScl: bool) {
    && !b.bug
    && b.phase != NackWrite
    && (b.phase in {AckRead, AckReadAddr, AckWrite, Read, Write} ==> b.slave != NoSlave)
    && (b.phase in {Addr, Write} ==> 0 <= b.bitcount < 8)
    && (b.phase == Read ==> 0 <= b.bitcount <= 8 && (b.bitcount == 0 ==> !oldScl))
    && (b.phase == AckRead && !oldScl ==> b.data)
    && (b.phase == Idle ==> b.clock && b.data)
  }

  lemma SoundStep(b: Bus, oldScl: bool, oldSda: bool, p: Pins)
    requires Sound(b, oldScl)
    ensures Sound(React(b, Edge(oldScl, oldSda, p.scl, p.sda, p.now)), p.scl)
  {
    hide ChipRead; hide ChipWrite; hide ChipStart; hide BitOf; hide ShiftIn;
  }

  /** Whatever the guest does with the two pins, the serialiser reaches none of its "Bug" branches. */
  lemma {:induction false} NeverBugs(b: Bus, oldScl: bool, oldSda: bool, pins: seq<Pins>)
    requires Sound(b, oldScl)
    ensures Sound(RunPins(b, oldScl, oldSda, pins), if pins == [] then oldScl else pins[|pins| - 1].scl)
    decreases |pins|
  {
    hide React; hide Edge; hide Sound;
    if pins != [] {
      var p := pins[0];
      SoundStep(b, oldScl, oldSda, p);
      NeverBugs(React(b, Edge(oldScl, oldSda, p.scl, p.sda, p.now)), p.scl, p.sda, pins[1..]);
    }
  }

  /** In particular from reset, with the pins at any levels. */
  lemma NeverBugsFromReset(b: Bus, oldScl: bool, oldSda: bool, pins: seq<Pins>)
    requires !b.bug
    ensures !RunPins(Reset(b), oldScl, oldSda, pins).bug
  {
    hide RunPins;
    NeverBugs(Reset(b), oldScl, oldSda, pins);
  }

  // ---- from levels to events ----

  /** The events a sequence of levels makes, without the changes that mean nothing. */
  function Events(oldScl: bool, oldSda: bool, pins: seq<Pins>): seq<Event>
    decreases |pins|
  {
    if pins == [] then []
    else
      var p := pins[0];
      var e := Edge(oldScl, oldSda, p.scl, p.sda, p.now);
      (if e == Nothing then [] else [e]) + Events(p.scl, p.sda, pins[1..])
  }

  function RunEvents(b: Bus, es: seq<Event>): Bus
    decreases |es|
  {
    if es == [] then b else RunEvents(React(b, es[0]), es[1..])
  }

  lemma {:induction false} RunEventsAppend(b: Bus, es: seq<Event>, fs: seq<Event>)
    ensures RunEvents(b, es + fs) == RunEvents(RunEvents(b, es), fs)
    decreases |es|
  {
    hide React;
    if es == [] {
      assert es + fs == fs;
    } else {
      assert (es + fs)[1..] == es[1..] + fs;
      RunEventsAppend(React(b, es[0]), es[1..], fs);
    }
  }

  /** The pin-level machine only reacts to the events. */
  lemma {:induction false} PinsAreEvents(b: Bus, oldScl: bool, oldSda: bool, pins: seq<Pins>)
    requires Sound(b, oldScl)
    ensures RunPins(b, oldScl, oldSda, pins) == RunEvents(b, Events(oldScl, oldSda, pins))
    decreases |pins|
  {
    hide Sound; hide React; hide Edge;
    if pins != [] {
      var p := pins[0];
      var e := Edge(oldScl, oldSda, p.scl, p.sda, p.now);
      SoundStep(b, oldScl, oldSda, p);
      var rest := Events(p.scl, p.sda, pins[1..]);
      PinsAreEvents(React(b, e), p.scl, p.sda, pins[1..]);
      if e == Nothing {
        Idles(b, oldScl);
        assert [] + rest == rest;
      } else {
        assert ([e] + rest)[1..] == rest;
      }
    }
  }

  lemma Idles(b: Bus, oldScl: bool)
    requires Sound(b, oldScl)
    ensures React(b, Nothing) == b
  {
  }

  // ---- transactions ----

  /** An event without its time of day. */
  datatype Mark = AStart | AStop | Up(bit: bool) | Down

  function MarkOf(e: Event): Mark {
    match e
    case Start => AStart
    case Stop => AStop
    case Rise(bit) => Up(bit)
    case _ => Down
  }

  /** The events spell the marks. */
  predicate Spells(es: seq<Event>, marks: seq<Mark>) {
    |es| == |marks| && forall i :: 0 <= i < |es| ==> es[i] != Nothing && MarkOf(es[i]) == marks[i]
  }

  lemma SpellsSplit(es: seq<Event>, m: seq<Mark>, n: seq<Mark>)
    requires Spells(es, m + n)
    ensures Spells(es[..|m|], m) && Spells(es[|m|..], n) && es == es[..|m|] + es[|m|..]
  {
    forall i | 0 <= i < |n| ensures es[|m|..][i] != Nothing && MarkOf(es[|m|..][i]) == n[i] {
      assert (m + n)[|m| + i] == n[i];
    }
    forall i | 0 <= i < |m| ensures es[..|m|][i] != Nothing && MarkOf(es[..|m|][i]) == m[i] {
      assert (m + n)[i] == m[i];
    }
  }

  /** Bits k-1 .. 0 of a byte, most significant first, one clock pulse each. */
  function BitMarks(v: Byte, k: nat): seq<Mark> {
    if k == 0 then [] else [Up(BitOf(v, k - 1)), Down] + BitMarks(v, k - 1)
  }

  /** A byte and the clock pulse of its acknowledgement, in which the master lets go of the line. */
  function ByteMarks(v: Byte): seq<Mark> { BitMarks(v, 8) + [Up(true), Down] }

  function BytesMarks(vs: seq<Byte>): seq<Mark> {
    if vs == [] then [] else ByteMarks(vs[0]) + BytesMarks(vs[1..])
  }

  lemma TopSteps(v: Byte, k: nat)
    requires 0 < k <= 8
    ensures Top(v, k) < 256 && ShiftIn(Top(v, k), BitOf(v, k - 1)) == Top(v, k - 1)
  {
    TopBound(v, k - 1);
  }

  lemma {:induction false} TopBound(v: Byte, k: nat)
    ensures Top(v, k) < 256
  {
    if k != 0 { TopBound(v, k - 1); }
  }

  lemma TopHalves(v: Byte, k: nat, bound: nat)
    requires k > 0 && Top(v, k - 1) < 2 * bound
    ensures Top(v, k) < bound
  {
  }

  lemma TopGone(v: Byte)
    ensures Top(v, 8) == 0
  {
    hide Top;
    LastBit(v);
    TopHalves(v, 1, 128);
    TopHalves(v, 2, 64);
    TopHalves(v, 3, 32);
    TopHalves(v, 4, 16);
    TopHalves(v, 5, 8);
    TopHalves(v, 6, 4);
    TopHalves(v, 7, 2);
    TopHalves(v, 8, 1);
  }

  /** Receiving: the bus takes in the k bits still missing of `v`, and acts on the last. */
  predicate Receiving(b: Bus, v: Byte, k: nat) {
    && 0 < k <= 8 && b.bitcount == 8 - k && Top(v, k) < 256 && b.inbuf == Top(v, k)
    && (b.phase == Addr || (b.phase == Write && b.slave == Pcf))
  }

  /** What the bus is after the whole byte. */
  function Received(b: Bus, v: Byte): Bus {
    var b1 := b.(bitcount := 8, inbuf := v, clock := true, data := false);
    if b.phase == Write then b1.(chips := ChipWrite(b.chips, Pcf, v), phase := AckWrite)
    else b1.(chips := ChipStart(b.chips, Pcf), slave := Pcf, phase := if v % 2 == 1 then AckReadAddr else AckWrite)
  }

  /** One clock pulse. */
  lemma ReceiveBit(b: Bus, v: Byte, k: nat, now: Clock)
    requires Receiving(b, v, k) && Top(v, k - 1) < 256
    requires b.phase == Addr ==> b.chips.hasPcf && v / 2 == 0x50
    ensures OnFall(OnRise(b, BitOf(v, k - 1)), now) ==
            if k == 1 then Received(b, v) else b.(bitcount := 9 - k, inbuf := Top(v, k - 1), clock := true, data := true)
  {
    hide ChipWrite; hide ChipStart; hide Top; hide ShiftIn; hide BitOf;
    TopSteps(v, k);
    LastBit(v);
  }

  lemma {:induction false} ReceiveBits(b: Bus, v: Byte, k: nat, es: seq<Event>)
    requires Receiving(b, v, k) && Spells(es, BitMarks(v, k))
    requires b.phase == Addr ==> b.chips.hasPcf && v / 2 == 0x50
    ensures RunEvents(b, es) == Received(b, v)
    decreases k
  {
    hide Top; hide BitOf; hide OnFall; hide OnRise; hide Received;
    assert es[0] == Rise(BitOf(v, k - 1)) && es[1].Fall? by {
      assert BitMarks(v, k)[0] == Up(BitOf(v, k - 1)) && BitMarks(v, k)[1] == Down;
    }
    TopBound(v, k - 1);
    ReceiveBit(b, v, k, es[1].now);
    RunTwo(b, es);
    if k == 1 {
      assert BitMarks(v, 0) == [];
      assert es[2..] == [];
    } else {
      var b2 := b.(bitcount := 9 - k, inbuf := Top(v, k - 1), clock := true, data := true);
      SpellsSplit(es, [Up(BitOf(v, k - 1)), Down], BitMarks(v, k - 1));
      ReceiveBits(b2, v, k - 1, es[2..]);
      SameReceived(b, b2, v);
    }
  }

  lemma SameReceived(b: Bus, c: Bus, v: Byte)
    requires c == b.(bitcount := c.bitcount, inbuf := c.inbuf, clock := c.clock, data := c.data)
    ensures Received(b, v) == Received(c, v)
  {
  }

  lemma LastBit(v: Byte)
    ensures Top(v, 0) == v
  {
  }

  lemma RunTwo(b: Bus, es: seq<Event>)
    requires |es| >= 2
    ensures RunEvents(b, es) == RunEvents(React(React(b, es[0]), es[1]), es[2..])
  {
    hide React;
    assert es[1..][1..] == es[2..];
  }

  /** Ready for the next byte of a write. */
  function Ready(b: Bus, chips: Chips): Bus {
    b.(phase := Write, bitcount := 0, slave := Pcf, inbuf := 0, clock := true, data := true, chips := chips)
  }

  /** A byte and its acknowledgement. */
  lemma ReceiveByte(b: Bus, v: Byte, es: seq<Event>)
    requires Receiving(b, v, 8) && Spells(es, ByteMarks(v))
    requires b.phase == Addr ==> b.chips.hasPcf && v == 0xA0
    ensures RunEvents(b, es) ==
            Ready(b, if b.phase == Write then ChipWrite(b.chips, Pcf, v) else ChipStart(b.chips, Pcf))
  {
    hide ChipWrite; hide ChipStart; hide Top; hide RunEvents; hide BitMarks; hide OnFall; hide OnRise;
    SpellsSplit(es, BitMarks(v, 8), [Up(true), Down]);
    var n := |BitMarks(v, 8)|;
    ReceiveBits(b, v, 8, es[..n]);
    RunEventsAppend(b, es[..n], es[n..]);
    Acknowledge(Received(b, v), es[n..]);
  }

  lemma Acknowledge(b: Bus, es: seq<Event>)
    requires b.phase == AckWrite && b.slave == Pcf && Spells(es, [Up(true), Down])
    ensures RunEvents(b, es) == Ready(b, b.chips)
  {
    assert MarkOf(es[0]) == Up(true) && MarkOf(es[1]) == Down;
    RunTwo(b, es);
    assert es[2..] == [];
  }

  /** The RAM after `vs` is written from `reg` on. */
  function Stored(ram: Ram, reg: Byte, vs: seq<Byte>): Ram
    decreases |vs|
  {
    if vs == [] then ram else Stored(ram[reg := vs[0]], Slot(reg, 1), vs[1..])
  }

  /** The last byte written to an address stays there. */
  lemma {:induction false} StoredAt(ram: Ram, reg: Byte, vs: seq<Byte>, i: nat)
    requires i < |vs| <= i + 256
    ensures Stored(ram, reg, vs)[Slot(reg, i)] == vs[i]
    decreases |vs|
  {
    hide Slot;
    SlotZero(reg);
    if i > 0 {
      StoredAt(ram[reg := vs[0]], Slot(reg, 1), vs[1..], i - 1);
      SlotNext(reg, i);
    } else {
      NotBack(reg, |vs| - 1);
      StoredElsewhere(ram[reg := vs[0]], Slot(reg, 1), vs[1..], reg);
    }
  }

  /** Fewer than 256 steps do not come back to where they began. */
  lemma NotBack(reg: Byte, n: nat)
    requires n < 256
    ensures forall j: nat :: j < n ==> Slot(Slot(reg, 1), j) != reg
  {
  }

  /** Every other byte keeps its value. */
  lemma {:induction false} StoredElsewhere(ram: Ram, reg: Byte, vs: seq<Byte>, a: Byte)
    requires forall j: nat :: j < |vs| ==> Slot(reg, j) != a
    ensures Stored(ram, reg, vs)[a] == ram[a]
    decreases |vs|
  {
    hide Slot;
    if vs != [] {
      SlotZero(reg);
      assert Slot(reg, 0) != a;
      forall j: nat | j < |vs| - 1 ensures Slot(Slot(reg, 1), j) != a {
        SlotNext(reg, j + 1);
      }
      StoredElsewhere(ram[reg := vs[0]], Slot(reg, 1), vs[1..], a);
    }
  }

  /** The address of the j-th byte of a transfer that starts at `reg`. */
  function Slot(reg: Byte, j: nat): Byte { (reg + j) % 256 }

  lemma {:induction false} ReceiveBytes(b: Bus, vs: seq<Byte>, es: seq<Event>)
    requires b == Ready(b, b.chips) && !b.chips.wantsReg && Spells(es, BytesMarks(vs))
    ensures RunEvents(b, es) ==
            b.(chips := b.chips.(ram := Stored(b.chips.ram, b.chips.reg, vs), reg := Slot(b.chips.reg, |vs|)))
    decreases |vs|
  {
    hide OnFall; hide OnRise; hide ByteMarks; hide Stored; hide Slot; hide RunEvents; hide Spells; hide Top; hide BytesMarks;
    StoredFirst(b.chips.ram, b.chips.reg, vs);
    BytesFirst(vs);
    if vs != [] {
      var c := b.chips;
      var c1 := c.(ram := c.ram[c.reg := vs[0]], reg := Slot(c.reg, 1));
      SpellsSplit(es, ByteMarks(vs[0]), BytesMarks(vs[1..]));
      var n := |ByteMarks(vs[0])|;
      TopGone(vs[0]);
      ReceiveByte(b, vs[0], es[..n]);
      WrittenByte(c, vs[0]);
      RunEventsAppend(b, es[..n], es[n..]);
      ReceiveBytes(Ready(b, c1), vs[1..], es[n..]);
      SlotNext(c.reg, |vs|);
    } else {
      SpellsLength(es, []);
      RunNothing(b);
      SlotZero(b.chips.reg);
    }
  }

  lemma StoredFirst(ram: Ram, reg: Byte, vs: seq<Byte>)
    ensures Stored(ram, reg, vs) == if vs == [] then ram else Stored(ram[reg := vs[0]], Slot(reg, 1), vs[1..])
  {
  }

  lemma BytesFirst(vs: seq<Byte>)
    ensures BytesMarks(vs) == if vs == [] then [] else ByteMarks(vs[0]) + BytesMarks(vs[1..])
  {
    hide ByteMarks;
  }

  lemma WrittenByte(c: Chips, v: Byte)
    requires !c.wantsReg
    ensures ChipWrite(c, Pcf, v) == c.(ram := c.ram[c.reg := v], reg := Slot(c.reg, 1))
  {
  }

  lemma SlotNext(reg: Byte, n: nat)
    requires n > 0
    ensures Slot(Slot(reg, 1), n - 1) == Slot(reg, n)
  {
    var q, r := (reg + n) / 256, (reg + n) % 256;
    Words.RemainderUnique(Slot(reg, 1) + (n - 1), 256, if reg < 255 then q else q - 1, r);
  }

  // ---- writing ----

  /** Start, the chip's address for writing, the register. */
  function SelectMarks(r: Byte): seq<Mark> { [AStart, Down] + (ByteMarks(0xA0) + ByteMarks(r)) }

  lemma SelectRegister(b: Bus, r: Byte, es: seq<Event>)
    requires b.chips.hasPcf && Spells(es, SelectMarks(r))
    ensures RunEvents(b, es) == Ready(Reset(b), b.chips.(reg := r, wantsReg := false))
  {
    hide OnFall; hide OnRise; hide ByteMarks; hide RunEvents; hide Top;
    SpellsSplit(es, [AStart, Down], ByteMarks(0xA0) + ByteMarks(r));
    var fs := es[2..];
    SpellsSplit(fs, ByteMarks(0xA0), ByteMarks(r));
    var n := |ByteMarks(0xA0)|;
    RunEventsAppend(b, es[..2], fs);
    Begin(b, es[..2]);
    var b1 := Reset(b).(phase := Addr);
    RunEventsAppend(b1, fs[..n], fs[n..]);
    TopGone(0xA0);
    TopGone(r);
    ReceiveByte(b1, 0xA0, fs[..n]);
    ReceiveByte(Ready(b1, ChipStart(b.chips, Pcf)), r, fs[n..]);
  }

  lemma Begin(b: Bus, es: seq<Event>)
    requires Spells(es, [AStart, Down])
    ensures RunEvents(b, es) == Reset(b).(phase := Addr)
  {
    assert MarkOf(es[0]) == AStart && MarkOf(es[1]) == Down;
    RunTwo(b, es);
    assert es[2..] == [];
  }

  /** The stop condition: the clock rises on a low data line, which then rises. */
  function StopMarks(): seq<Mark> { [Up(false), AStop] }

  lemma End(b: Bus, es: seq<Event>)
    requires b == Ready(b, b.chips) && Spells(es, StopMarks())
    ensures RunEvents(b, es) == Reset(b).(chips := b.chips.(wantsReg := true))
  {
    assert MarkOf(es[0]) == Up(false) && MarkOf(es[1]) == AStop;
    RunTwo(b, es);
    assert es[2..] == [];
  }

  function WriteMarks(r: Byte, vs: seq<Byte>): seq<Mark> { SelectMarks(r) + (BytesMarks(vs) + StopMarks()) }

  /**
   A write: byte i goes to register (r + i) mod 256, nothing else in the chip changes, and the bus
   is back at rest, whatever state the serialiser was in before.
   */
  lemma WriteTransaction(b: Bus, r: Byte, vs: seq<Byte>, es: seq<Event>)
    requires b.chips.hasPcf && Spells(es, WriteMarks(r, vs))
    ensures RunEvents(b, es) ==
            Reset(b).(chips := b.chips.(ram := Stored(b.chips.ram, r, vs), reg := Slot(r, |vs|), wantsReg := true))
  {
    hide RunEvents; hide SelectMarks; hide BytesMarks; hide StopMarks; hide Stored; hide Slot;
    SpellsSplit(es, SelectMarks(r), BytesMarks(vs) + StopMarks());
    var n := |SelectMarks(r)|;
    var fs := es[n..];
    SpellsSplit(fs, BytesMarks(vs), StopMarks());
    var m := |BytesMarks(vs)|;
    RunEventsAppend(b, es[..n], fs);
    SelectRegister(b, r, es[..n]);
    var b1 := Ready(Reset(b), b.chips.(reg := r, wantsReg := false));
    RunEventsAppend(b1, fs[..m], fs[m..]);
    ReceiveBytes(b1, vs, fs[..m]);
    End(RunEvents(b1, fs[..m]), fs[m..]);
  }

  // ---- reading ----

  /** The level of the data line each time the master raises the clock. */
  function Samples(b: Bus, es: seq<Event>): seq<bool>
    decreases |es|
  {
    if es == [] then [] else (if es[0].Rise? then [b.data] else []) + Samples(React(b, es[0]), es[1..])
  }

  lemma {:induction false} SamplesAppend(b: Bus, es: seq<Event>, fs: seq<Event>)
    ensures Samples(b, es + fs) == Samples(b, es) + Samples(RunEvents(b, es), fs)
    decreases |es|
  {
    hide React;
    if es == [] {
      assert es + fs == fs;
    } else {
      assert (es + fs)[1..] == es[1..] + fs;
      SamplesAppend(React(b, es[0]), es[1..], fs);
    }
  }

  /** k clock pulses with the master's data line released, low part first. */
  function PulseMarks(k: nat): seq<Mark> { if k == 0 then [] else [Down, Up(true)] + PulseMarks(k - 1) }

  /** A byte taken from the chip, then the master's answer: low for more, released for the last. */
  function TakeMarks(last: bool): seq<Mark> { PulseMarks(8) + [Down, Up(last)] }

  function TakesMarks(m: nat): seq<Mark> {
    if m == 0 then [] else TakeMarks(m == 1) + TakesMarks(m - 1)
  }

  /** Bits k-1 .. 0, most significant first. */
  function Bits(v: Byte, k: nat): seq<bool> { if k == 0 then [] else [BitOf(v, k - 1)] + Bits(v, k - 1) }

  /** The bytes on the data line, each followed by a released acknowledgement slot. */
  function Line(vs: seq<Byte>): seq<bool> {
    if vs == [] then [] else Bits(vs[0], 8) + [true] + Line(vs[1..])
  }

  lemma SamplesTwo(b: Bus, es: seq<Event>)
    requires |es| >= 2 && es[0].Fall? && es[1].Rise?
    ensures Samples(b, es) == [OnFall(b, es[0].now).data] + Samples(OnRise(OnFall(b, es[0].now), es[1].bit), es[2..])
  {
    hide OnFall; hide OnRise;
    assert es[1..][1..] == es[2..];
    var b1 := React(b, es[0]);
    assert Samples(b, es) == [] + Samples(b1, es[1..]);
    assert Samples(b1, es[1..]) == [b1.data] + Samples(React(b1, es[1]), es[2..]);
  }

  /** The remaining bits of a byte already fetched. */
  lemma {:induction false} SendBits(b: Bus, k: nat, es: seq<Event>)
    requires b.phase == Read && b.slave == Pcf && b.bitcount == k && 0 < k < 8 && Spells(es, PulseMarks(k))
    ensures RunEvents(b, es) == b.(phase := AckRead, bitcount := 0, clock := true, data := BitOf(b.outbuf, 0))
    ensures Samples(b, es) == Bits(b.outbuf, k)
    decreases k
  {
    hide BitOf; hide Fetch; hide Samples; hide RunEvents;
    assert es[0].Fall? && es[1] == Rise(true) by {
      assert PulseMarks(k)[0] == Down && PulseMarks(k)[1] == Up(true);
    }
    RunTwo(b, es);
    SamplesTwo(b, es);
    var b1 := b.(bitcount := k - 1, clock := true, data := BitOf(b.outbuf, k - 1));
    if k == 1 {
      assert es[2..] == [];
      RunNothing(b1.(phase := AckRead));
    } else {
      SpellsSplit(es, [Down, Up(true)], PulseMarks(k - 1));
      SendBits(b1, k - 1, es[2..]);
    }
  }

  lemma RunNothing(b: Bus)
    ensures RunEvents(b, []) == b && Samples(b, []) == []
  {
  }

  /** The chip when a byte is wanted from it. */
  predicate Sending(b: Bus) { b.phase == Read && b.slave == Pcf && b.bitcount == 8 }

  /** One byte: the chip is asked at the first falling edge. */
  lemma SendByte(b: Bus, es: seq<Event>)
    requires Sending(b) && Spells(es, PulseMarks(8))
    ensures es[0].Fall?
    ensures var (v, chips) := ChipRead(b.chips, Pcf, es[0].now);
            && Samples(b, es) == Bits(v, 8)
            && RunEvents(b, es) == b.(phase := AckRead, bitcount := 0, outbuf := v, chips := chips, clock := true, data := BitOf(v, 0))
  {
    hide BitOf; hide ChipRead; hide Samples; hide RunEvents; hide PulseMarks;
    PulseFirst(8);
    assert es[0].Fall? && es[1] == Rise(true) by {
      assert PulseMarks(8)[0] == Down && PulseMarks(8)[1] == Up(true);
    }
    var (v, chips) := ChipRead(b.chips, Pcf, es[0].now);
    RunTwo(b, es);
    SamplesTwo(b, es);
    var b1 := b.(bitcount := 7, outbuf := v, chips := chips, clock := true, data := BitOf(v, 7));
    SpellsSplit(es, [Down, Up(true)], PulseMarks(7));
    SendBits(b1, 7, es[2..]);
    assert Bits(v, 8) == [BitOf(v, 7)] + Bits(v, 7);
  }

  lemma PulseFirst(k: nat)
    requires k > 0
    ensures PulseMarks(k) == [Down, Up(true)] + PulseMarks(k - 1)
  {
  }

  lemma {:induction false} PulseLength(k: nat)
    ensures |PulseMarks(k)| == 2 * k
  {
    if k > 0 { PulseLength(k - 1); }
  }

  /** The master's answer, in a slot where the chip has let go of the line. */
  lemma Answer(b: Bus, last: bool, es: seq<Event>)
    requires b.phase == AckRead && b.slave == Pcf && Spells(es, [Down, Up(last)])
    ensures Samples(b, es) == [true]
    ensures RunEvents(b, es) ==
            if last then b.(phase := Wait, clock := true, data := true)
            else b.(phase := Read, bitcount := 8, clock := true, data := true)
  {
    hide Samples; hide RunEvents;
    assert MarkOf(es[0]) == Down && MarkOf(es[1]) == Up(last);
    RunTwo(b, es);
    SamplesTwo(b, es);
    assert es[2..] == [];
    RunNothing(b.(phase := Wait, clock := true, data := true));
    RunNothing(b.(phase := Read, bitcount := 8, clock := true, data := true));
  }

  /** The bus after a byte and its answer. */
  function Taken(b: Bus, last: bool, now: Clock): Bus {
    var (v, chips) := ChipRead(b.chips, Pcf, now);
    b.(phase := if last then Wait else Read, bitcount := if last then 0 else 8,
       outbuf := v, chips := chips, clock := true, data := true)
  }

  lemma TakeByte(b: Bus, last: bool, es: seq<Event>)
    requires Sending(b) && Spells(es, TakeMarks(last))
    ensures |es| == 18 && es[0].Fall? && RunEvents(b, es) == Taken(b, last, es[0].now)
    ensures Samples(b, es) == Bits(ChipRead(b.chips, Pcf, es[0].now).0, 8) + [true]
  {
    hide BitOf; hide ChipRead; hide Samples; hide RunEvents; hide PulseMarks; hide Bits;
    SpellsSplit(es, PulseMarks(8), [Down, Up(last)]);
    PulseLength(8);
    SendByte(b, es[..16]);
    RunEventsAppend(b, es[..16], es[16..]);
    SamplesAppend(b, es[..16], es[16..]);
    Answer(RunEvents(b, es[..16]), last, es[16..]);
  }

  /** The bytes read one after the other at the given times, and the chip afterwards. */
  function BytesRead(c: Chips, times: seq<Clock>): (seq<Byte>, Chips)
    decreases |times|
  {
    if times == [] then ([], c)
    else
      var (v, c1) := ChipRead(c, Pcf, times[0]);
      var (vs, c2) := BytesRead(c1, times[1..]);
      ([v] + vs, c2)
  }

  /** The times at which the chip is asked: the first falling edge of each byte. */
  predicate AskedAt(es: seq<Event>, times: seq<Clock>) {
    |es| == 18 * |times| && forall i :: 0 <= i < |times| ==> es[18 * i] == Fall(times[i])
  }

  lemma {:induction false} TakesLength(m: nat)
    ensures |TakesMarks(m)| == 18 * m
  {
    hide PulseMarks;
    PulseLength(8);
    if m > 0 { TakesLength(m - 1); }
  }

  lemma {:induction false} TakeBytes(b: Bus, times: seq<Clock>, es: seq<Event>)
    requires Sending(b) && times != [] && Spells(es, TakesMarks(|times|)) && AskedAt(es, times)
    ensures Samples(b, es) == Line(BytesRead(b.chips, times).0)
    ensures var e := RunEvents(b, es);
            && e.chips == BytesRead(b.chips, times).1
            && e == b.(phase := Wait, bitcount := 0, chips := e.chips, outbuf := e.outbuf, clock := true, data := true)
    decreases |times|
  {
    hide ChipRead; hide Samples; hide RunEvents; hide TakeMarks; hide Bits; hide Spells; hide TakesMarks;
    var m := |times|;
    TakesFirst(m);
    SpellsSplit(es, TakeMarks(m == 1), TakesMarks(m - 1));
    SpellsLength(es[..|TakeMarks(m == 1)|], TakeMarks(m == 1));
    TakeByte(b, m == 1, es[..|TakeMarks(m == 1)|]);
    var first, rest := es[..18], es[18..];
    assert es == first + rest;
    assert first[0] == es[18 * 0] == Fall(times[0]);
    RunEventsAppend(b, first, rest);
    SamplesAppend(b, first, rest);
    var b1 := Taken(b, m == 1, times[0]);
    var vs := BytesRead(b1.chips, times[1..]).0;
    var v := ChipRead(b.chips, Pcf, times[0]).0;
    assert BytesRead(b.chips, times).0 == [v] + vs;
    LineFirst(v, vs);
    if m == 1 {
      assert rest == [] && times[1..] == [];
      RunNothing(b1);
    } else {
      forall i | 0 <= i < |times[1..]| ensures rest[18 * i] == Fall(times[1..][i]) {
        assert es[18 * (i + 1)] == Fall(times[i + 1]);
      }
      TakeBytes(b1, times[1..], rest);
    }
  }

  lemma TakesFirst(m: nat)
    requires m > 0
    ensures TakesMarks(m) == TakeMarks(m == 1) + TakesMarks(m - 1)
  {
  }

  lemma SpellsLength(es: seq<Event>, marks: seq<Mark>)
    requires Spells(es, marks)
    ensures |es| == |marks|
  {
  }

  lemma LineFirst(v: Byte, vs: seq<Byte>)
    ensures Line([v] + vs) == Bits(v, 8) + [true] + Line(vs)
  {
    hide Bits;
    assert ([v] + vs)[1..] == vs;
  }

  /** What a read of register `a` gives at the time `now`. */
  function Register(ram: Ram, a: Byte, now: Clock): Byte { if 1 <= a <= 6 then now[a - 1] else ram[a] }

  /** The i-th byte read is register (r + i) mod 256: the time for registers 1 to 6, the RAM otherwise. */
  lemma {:induction false} BytesReadAre(c: Chips, times: seq<Clock>)
    ensures var (vs, d) := BytesRead(c, times);
            && |vs| == |times|
            && (forall i: nat :: i < |times| ==> vs[i] == Register(c.ram, Slot(c.reg, i), times[i]))
            && d == c.(ram := d.ram, reg := Slot(c.reg, |times|))
            && (forall a: nat :: a < 256 && !(1 <= a <= 6) ==> d.ram[a] == c.ram[a])
    decreases |times|
  {
    hide Slot; hide Register; hide ChipRead;
    SlotZero(c.reg);
    if times != [] {
      ChipReadIs(c, times[0]);
      var (v, c1) := ChipRead(c, Pcf, times[0]);
      BytesReadAre(c1, times[1..]);
      var vs := BytesRead(c1, times[1..]).0;
      forall i: nat | i < |times|
        ensures ([v] + vs)[i] == Register(c.ram, Slot(c.reg, i), times[i])
      {
        if i > 0 {
          SlotNext(c.reg, i);
          SameRegister(c.ram, c1.ram, Slot(c.reg, i), times[i]);
          assert times[1..][i - 1] == times[i];
          assert vs[i - 1] == Register(c1.ram, Slot(c1.reg, i - 1), times[i]);
        }
      }
      SlotNext(c.reg, |times|);
    }
  }

  lemma SlotZero(reg: Byte)
    ensures Slot(reg, 0) == reg
  {
  }

  lemma SameRegister(ram: Ram, other: Ram, a: Byte, now: Clock)
    requires forall i: nat :: i < 256 && !(1 <= i <= 6) ==> other[i] == ram[i]
    ensures Register(ram, a, now) == Register(other, a, now)
  {
  }

  lemma ChipReadIs(c: Chips, now: Clock)
    ensures var (v, d) := ChipRead(c, Pcf, now);
            && v == Register(c.ram, c.reg, now)
            && d == c.(ram := d.ram, reg := Slot(c.reg, 1))
            && (forall a: nat :: a < 256 && !(1 <= a <= 6) ==> d.ram[a] == c.ram[a])
  {
  }

  /** Start, address, register, repeated start, address for reading. */
  function TurnMarks(): seq<Mark> { [Up(true), AStart, Down] + (BitMarks(0xA1, 8) + [Up(true)]) }

  lemma Turn(b: Bus, es: seq<Event>)
    requires b == Ready(b, b.chips) && b.chips.hasPcf && Spells(es, TurnMarks())
    ensures var e := RunEvents(b, es);
            Sending(e) && e.chips == b.chips.(wantsReg := true) && e.bug == b.bug
  {
    hide BitMarks; hide Top; hide OnFall; hide RunEvents; hide Select; hide ChipWrite; hide ShiftIn;
    SpellsSplit(es, [Up(true), AStart, Down], BitMarks(0xA1, 8) + [Up(true)]);
    var fs := es[3..];
    var n := |BitMarks(0xA1, 8)|;
    SpellsSplit(fs, BitMarks(0xA1, 8), [Up(true)]);
    assert es[..3] == [es[0]] + es[1..3];
    assert [Up(true), AStart, Down] == [Up(true)] + [AStart, Down];
    SpellsSplit(es[..3], [Up(true)], [AStart, Down]);
    assert es[..3][1..] == es[1..3];
    RunEventsAppend(b, es[..3], fs);
    RunEventsAppend(b, [es[0]], es[1..3]);
    RunOne(b, es[0]);
    var b0 := OnRise(b, true);
    assert es[0] == Rise(true) by { assert MarkOf(es[..3][0]) == Up(true); }
    assert b0.chips == b.chips && b0.bug == b.bug;
    Begin(b0, es[1..3]);
    var b1 := Reset(b0).(phase := Addr);
    RunEventsAppend(b1, fs[..n], fs[n..]);
    TopGone(0xA1);
    ReceiveBits(b1, 0xA1, 8, fs[..n]);
    var b2 := Received(b1, 0xA1);
    assert fs[n..] == [Rise(true)] by { assert MarkOf(fs[n..][0]) == Up(true); }
    RunOne(b2, Rise(true));
  }

  lemma RunOne(b: Bus, e: Event)
    ensures RunEvents(b, [e]) == React(b, e)
  {
    hide React;
    RunNothing(React(b, e));
  }

  /** The clock falls after the last answer; then the stop condition. */
  function FinishMarks(): seq<Mark> { [Down, Up(false), AStop] }

  lemma Finish(b: Bus, es: seq<Event>)
    requires b.phase == Wait && b.slave == Pcf && Spells(es, FinishMarks())
    ensures RunEvents(b, es) == Reset(b).(chips := b.chips.(wantsReg := true))
  {
    assert MarkOf(es[0]) == Down && MarkOf(es[1]) == Up(false) && MarkOf(es[2]) == AStop;
    RunTwo(b, es);
    RunOne(b, es[2]);
    assert es[2..] == [es[2]];
  }

  /** Registers r, r + 1, ... as they stand when each is asked for. */
  function Registers(ram: Ram, r: Byte, times: seq<Clock>): seq<Byte> {
    seq(|times|, i requires 0 <= i < |times| => Register(ram, Slot(r, i), times[i]))
  }

  lemma BytesReadRegisters(c: Chips, times: seq<Clock>)
    ensures BytesRead(c, times).0 == Registers(c.ram, c.reg, times)
  {
    hide Register; hide Slot; hide BytesRead;
    BytesReadAre(c, times);
  }

  /**
   A read with repeated start: the data line carries exactly the wanted registers, bit by bit, and
   the chip keeps everything but the time registers it refreshed.
   */
  lemma ReadTransaction(b: Bus, r: Byte, times: seq<Clock>, pre: seq<Event>, body: seq<Event>, post: seq<Event>)
    requires b.chips.hasPcf && times != []
    requires Spells(pre, SelectMarks(r) + TurnMarks())
    requires Spells(body, TakesMarks(|times|)) && AskedAt(body, times)
    requires Spells(post, FinishMarks())
    ensures Samples(RunEvents(b, pre), body) == Line(Registers(b.chips.ram, r, times))
    ensures var e := RunEvents(b, pre + body + post);
            && e == Reset(b).(chips := b.chips.(ram := e.chips.ram, reg := Slot(r, |times|), wantsReg := true))
            && (forall a: nat :: a < 256 && !(1 <= a <= 6) ==> e.chips.ram[a] == b.chips.ram[a])
  {
    hide RunEvents; hide SelectMarks; hide TurnMarks; hide TakesMarks; hide FinishMarks; hide Slot;
    hide Samples; hide Line; hide Register; hide BytesRead; hide Spells; hide AskedAt;
    SpellsSplit(pre, SelectMarks(r), TurnMarks());
    var n := |SelectMarks(r)|;
    RunEventsAppend(b, pre[..n], pre[n..]);
    SelectRegister(b, r, pre[..n]);
    var b1 := RunEvents(b, pre[..n]);
    Turn(b1, pre[n..]);
    var b2 := RunEvents(b, pre);
    TakeBytes(b2, times, body);
    BytesReadRegisters(b2.chips, times);
    BytesReadAre(b2.chips, times);
    RunEventsAppend(b, pre, body);
    RunEventsAppend(b, pre + body, post);
    Finish(RunEvents(b2, body), post);
  }

  // ---- transactions on the pins ----

  /** Levels that make the marks: the data line moves while the clock is low, except to start and stop. */
  function Wave(marks: seq<Mark>, sda: bool, now: Clock): seq<Pins>
    decreases |marks|
  {
    if marks == [] then []
    else
      match marks[0]
      case AStart => [Pins(true, false, now)] + Wave(marks[1..], false, now)
      case AStop => [Pins(true, true, now)] + Wave(marks[1..], true, now)
      case Up(bit) => [Pins(false, bit, now), Pins(true, bit, now)] + Wave(marks[1..], bit, now)
      case Down => [Pins(false, sda, now)] + Wave(marks[1..], sda, now)
  }

  /** The marks can follow each other from the given levels. */
  predicate Playable(marks: seq<Mark>, scl: bool, sda: bool)
    decreases |marks|
  {
    marks == [] ||
    match marks[0]
    case AStart => scl && sda && Playable(marks[1..], true, false)
    case AStop => scl && !sda && Playable(marks[1..], true, true)
    case Up(bit) => !scl && Playable(marks[1..], true, bit)
    case Down => scl && Playable(marks[1..], false, sda)
  }

  lemma SpellsCons(e: Event, es: seq<Event>, marks: seq<Mark>)
    requires marks != [] && e != Nothing && MarkOf(e) == marks[0] && Spells(es, marks[1..])
    ensures Spells([e] + es, marks)
  {
    assert forall i :: 0 < i < |marks| ==> ([e] + es)[i] == es[i - 1] && marks[i] == marks[1..][i - 1];
  }

  lemma EventsCons(scl: bool, sda: bool, p: Pins, rest: seq<Pins>)
    ensures var e := Edge(scl, sda, p.scl, p.sda, p.now);
            Events(scl, sda, [p] + rest) == if e == Nothing then Events(p.scl, p.sda, rest) else [e] + Events(p.scl, p.sda, rest)
  {
    assert ([p] + rest)[1..] == rest;
  }

  /** The levels after a mark, and the event it makes. */
  function SclAfter(m: Mark): bool { m != Down }

  function SdaAfter(m: Mark, sda: bool): bool {
    match m
    case AStart => false
    case AStop => true
    case Up(bit) => bit
    case Down => sda
  }

  function EventFor(m: Mark, now: Clock): Event {
    match m
    case AStart => Start
    case AStop => Stop
    case Up(bit) => Rise(bit)
    case Down => Fall(now)
  }

  /** The first mark of a waveform. */
  lemma WaveFirst(marks: seq<Mark>, scl: bool, sda: bool, now: Clock)
    requires Playable(marks, scl, sda) && marks != []
    ensures var scl', sda' := SclAfter(marks[0]), SdaAfter(marks[0], sda);
            && Playable(marks[1..], scl', sda')
            && Events(scl, sda, Wave(marks, sda, now)) == [EventFor(marks[0], now)] + Events(scl', sda', Wave(marks[1..], sda', now))
  {
    hide Events; hide Edge; hide Wave; hide Playable;
    PlayableFirst(marks, scl, sda);
    WaveUnfolds(marks, sda, now);
    var rest := Wave(marks[1..], SdaAfter(marks[0], sda), now);
    match marks[0] {
      case AStart =>
        EdgeOf(true, true, false, now);
        EventsCons(scl, sda, Pins(true, false, now), rest);
      case AStop =>
        EdgeOf(true, false, true, now);
        EventsCons(scl, sda, Pins(true, true, now), rest);
      case Up(bit) =>
        EdgeOf(false, sda, bit, now);
        EventsCons(scl, sda, Pins(false, bit, now), [Pins(true, bit, now)] + rest);
        EventsCons(false, bit, Pins(true, bit, now), rest);
      case Down =>
        EdgeOf(true, sda, sda, now);
        EventsCons(scl, sda, Pins(false, sda, now), rest);
    }
  }

  lemma PlayableFirst(marks: seq<Mark>, scl: bool, sda: bool)
    requires Playable(marks, scl, sda) && marks != []
    ensures Playable(marks[1..], SclAfter(marks[0]), SdaAfter(marks[0], sda))
    ensures match marks[0] { case AStart => scl && sda case AStop => scl && !sda case Up(_) => !scl case Down => scl }
  {
  }

  lemma WaveUnfolds(marks: seq<Mark>, sda: bool, now: Clock)
    requires marks != []
    ensures var rest := Wave(marks[1..], SdaAfter(marks[0], sda), now);
            Wave(marks, sda, now) ==
            match marks[0] {
              case AStart => [Pins(true, false, now)] + rest
              case AStop => [Pins(true, true, now)] + rest
              case Up(bit) => [Pins(false, bit, now)] + ([Pins(true, bit, now)] + rest)
              case Down => [Pins(false, sda, now)] + rest
            }
  {
  }

  /** What a change of one line means. */
  lemma EdgeOf(scl: bool, sda: bool, next: bool, now: Clock)
    ensures Edge(true, sda, true, next, now) == if sda == next then Nothing else if next then Stop else Start
    ensures Edge(true, sda, false, sda, now) == Fall(now)
    ensures Edge(false, sda, false, next, now) == Nothing && Edge(false, next, true, next, now) == Rise(next)
  {
  }

  lemma NoWave(scl: bool, sda: bool, now: Clock)
    ensures Events(scl, sda, Wave([], sda, now)) == []
  {
  }

  lemma {:induction false} WaveSpells(marks: seq<Mark>, scl: bool, sda: bool, now: Clock)
    requires Playable(marks, scl, sda)
    ensures Spells(Events(scl, sda, Wave(marks, sda, now)), marks)
    decreases |marks|
  {
    hide Events; hide Wave; hide Playable;
    NoWave(scl, sda, now);
    if marks != [] {
      var scl', sda' := SclAfter(marks[0]), SdaAfter(marks[0], sda);
      WaveFirst(marks, scl, sda, now);
      WaveSpells(marks[1..], scl', sda', now);
      SpellsCons(EventFor(marks[0], now), Events(scl', sda', Wave(marks[1..], sda', now)), marks);
    }
  }

  /** A write on the pins, by any levels whatsoever that make its events. */
  lemma WriteOnPins(b: Bus, oldScl: bool, oldSda: bool, r: Byte, vs: seq<Byte>, pins: seq<Pins>)
    requires Sound(b, oldScl) && b.chips.hasPcf
    requires Spells(Events(oldScl, oldSda, pins), WriteMarks(r, vs))
    ensures RunPins(b, oldScl, oldSda, pins) ==
            Reset(b).(chips := b.chips.(ram := Stored(b.chips.ram, r, vs), reg := Slot(r, |vs|), wantsReg := true))
  {
    hide Stored; hide Spells; hide Events; hide WriteMarks; hide RunPins;
    PinsAreEvents(b, oldScl, oldSda, pins);
    WriteTransaction(b, r, vs, Events(oldScl, oldSda, pins));
  }

  /** The next mark raises the clock. */
  predicate Rises(marks: seq<Mark>) { marks != [] && marks[0].Up? && forall sda :: Playable(marks, false, sda) }

  lemma PlayPulse(bit: bool, tail: seq<Mark>)
    requires Rises(tail)
    ensures Rises([Up(bit), Down] + tail)
  {
    var marks := [Up(bit), Down] + tail;
    assert marks[1..] == [Down] + tail;
    assert marks[1..][1..] == tail;
    assert Playable(tail, false, bit);
  }

  lemma {:induction false} PlayBits(v: Byte, k: nat, tail: seq<Mark>)
    requires Rises(tail)
    ensures Rises(BitMarks(v, k) + tail)
  {
    hide Rises; hide BitOf;
    if k == 0 {
      assert BitMarks(v, k) + tail == tail;
    } else {
      PlayBits(v, k - 1, tail);
      PlayPulse(BitOf(v, k - 1), BitMarks(v, k - 1) + tail);
      assert BitMarks(v, k) + tail == [Up(BitOf(v, k - 1)), Down] + (BitMarks(v, k - 1) + tail);
    }
  }

  lemma PlayByte(v: Byte, tail: seq<Mark>)
    requires Rises(tail)
    ensures Rises(ByteMarks(v) + tail)
  {
    hide Rises; hide BitMarks;
    PlayPulse(true, tail);
    PlayBits(v, 8, [Up(true), Down] + tail);
    assert ByteMarks(v) + tail == BitMarks(v, 8) + ([Up(true), Down] + tail);
  }

  lemma {:induction false} PlayBytes(vs: seq<Byte>, tail: seq<Mark>)
    requires Rises(tail)
    ensures Rises(BytesMarks(vs) + tail)
    decreases |vs|
  {
    hide Rises; hide ByteMarks;
    if vs == [] {
      assert BytesMarks(vs) + tail == tail;
    } else {
      PlayBytes(vs[1..], tail);
      PlayByte(vs[0], BytesMarks(vs[1..]) + tail);
      assert BytesMarks(vs) + tail == ByteMarks(vs[0]) + (BytesMarks(vs[1..]) + tail);
    }
  }

  lemma PlayWrite(r: Byte, vs: seq<Byte>)
    ensures Playable(WriteMarks(r, vs), true, true)
  {
    hide ByteMarks; hide BytesMarks;
    var tail := BytesMarks(vs) + StopMarks();
    assert StopMarks()[1..] == [AStop];
    assert Rises(StopMarks());
    PlayBytes(vs, StopMarks());
    PlayByte(r, tail);
    PlayByte(0xA0, ByteMarks(r) + tail);
    var rest := ByteMarks(0xA0) + (ByteMarks(r) + tail);
    assert Playable(rest, false, false);
    assert WriteMarks(r, vs) == [AStart, Down] + rest;
    assert WriteMarks(r, vs)[1..] == [Down] + rest;
    assert WriteMarks(r, vs)[1..][1..] == rest;
  }

  /** So every write can be clocked in from resting lines, and does what it says. */
  lemma WriteWave(b: Bus, r: Byte, vs: seq<Byte>, now: Clock)
    requires Sound(b, true) && b.chips.hasPcf
    ensures RunPins(b, true, true, Wave(WriteMarks(r, vs), true, now)) ==
            Reset(b).(chips := b.chips.(ram := Stored(b.chips.ram, r, vs), reg := Slot(r, |vs|), wantsReg := true))
  {
    hide Stored; hide Spells; hide Events; hide WriteMarks; hide RunPins; hide Playable; hide Wave;
    PlayWrite(r, vs);
    WaveSpells(WriteMarks(r, vs), true, true, now);
    WriteOnPins(b, true, true, r, vs, Wave(WriteMarks(r, vs), true, now));
  }

  // ---- reading on the pins ----

  /** The level of the data line each time the pins raise the clock. */
  function PinSamples(b: Bus, oldScl: bool, oldSda: bool, pins: seq<Pins>): seq<bool>
    decreases |pins|
  {
    if pins == [] then []
    else
      var p := pins[0];
      var e := Edge(oldScl, oldSda, p.scl, p.sda, p.now);
      (if e.Rise? then [b.data] else []) + PinSamples(React(b, e), p.scl, p.sda, pins[1..])
  }

  /** They are the samples of the events. */
  lemma {:induction false} SamplesAreEvents(b: Bus, oldScl: bool, oldSda: bool, pins: seq<Pins>)
    requires Sound(b, oldScl)
    ensures PinSamples(b, oldScl, oldSda, pins) == Samples(b, Events(oldScl, oldSda, pins))
    decreases |pins|
  {
    hide Sound; hide React; hide Edge;
    if pins != [] {
      var p := pins[0];
      var e := Edge(oldScl, oldSda, p.scl, p.sda, p.now);
      SoundStep(b, oldScl, oldSda, p);
      SamplesAreEvents(React(b, e), p.scl, p.sda, pins[1..]);
      var rest := Events(p.scl, p.sda, pins[1..]);
      if e == Nothing {
        Idles(b, oldScl);
        assert [] + rest == rest;
      } else {
        assert ([e] + rest)[1..] == rest;
      }
    }
  }

  /** Clock pulses. */
  function Pulses(marks: seq<Mark>): nat { if marks == [] then 0 else (if marks[0].Up? then 1 else 0) + Pulses(marks[1..]) }

  lemma {:induction false} PulsesAppend(m: seq<Mark>, n: seq<Mark>)
    ensures Pulses(m + n) == Pulses(m) + Pulses(n)
    decreases |m|
  {
    if m == [] {
      assert m + n == n;
    } else {
      assert (m + n)[1..] == m[1..] + n;
      PulsesAppend(m[1..], n);
    }
  }

  /** One sample for each pulse. */
  lemma {:induction false} SamplesCount(b: Bus, es: seq<Event>, marks: seq<Mark>)
    requires Spells(es, marks)
    ensures |Samples(b, es)| == Pulses(marks)
    decreases |es|
  {
    hide React;
    if es != [] {
      assert marks == [marks[0]] + marks[1..];
      SpellsSplit(es, [marks[0]], marks[1..]);
      SamplesCount(React(b, es[0]), es[1..], marks[1..]);
    }
  }

  lemma {:induction false} BitPulses(v: Byte, k: nat)
    ensures Pulses(BitMarks(v, k)) == k
    decreases k
  {
    hide BitOf;
    if k > 0 {
      BitPulses(v, k - 1);
      PulsesAppend([Up(BitOf(v, k - 1)), Down], BitMarks(v, k - 1));
      TwoPulses(Up(BitOf(v, k - 1)), Down);
    }
  }

  lemma TwoPulses(m: Mark, n: Mark)
    ensures Pulses([m, n]) == (if m.Up? then 1 else 0) + if n.Up? then 1 else 0
  {
    assert [m, n][1..] == [n] && [n][1..] == [];
    assert Pulses([n]) == if n.Up? then 1 else 0;
  }

  lemma BytePulses(v: Byte)
    ensures Pulses(ByteMarks(v)) == 9
  {
    hide BitMarks;
    BitPulses(v, 8);
    PulsesAppend(BitMarks(v, 8), [Up(true), Down]);
    TwoPulses(Up(true), Down);
  }

  /** What comes before the bytes of a read. */
  function Preamble(r: Byte): seq<Mark> { SelectMarks(r) + TurnMarks() }

  /** Two address bytes, the register, their acknowledgements, and the pulse of the repeated start. */
  lemma PreamblePulses(r: Byte)
    ensures Pulses(Preamble(r)) == 28
  {
    hide ByteMarks; hide BitMarks; hide Pulses;
    BytePulses(0xA0);
    BytePulses(r);
    BitPulses(0xA1, 8);
    TwoPulses(AStart, Down);
    PulsesAppend(ByteMarks(0xA0), ByteMarks(r));
    PulsesAppend([AStart, Down], ByteMarks(0xA0) + ByteMarks(r));
    OnePulse();
    assert [Up(true), AStart, Down] == [Up(true)] + [AStart, Down];
    PulsesAppend([Up(true)], [AStart, Down]);
    PulsesAppend(BitMarks(0xA1, 8), [Up(true)]);
    PulsesAppend([Up(true), AStart, Down], BitMarks(0xA1, 8) + [Up(true)]);
    PulsesAppend(SelectMarks(r), TurnMarks());
  }

  lemma OnePulse()
    ensures Pulses([Up(true)]) == 1
  {
    assert [Up(true)][1..] == [];
    assert Pulses([]) == 0;
  }

  lemma {:induction false} LineLength(vs: seq<Byte>)
    ensures |Line(vs)| == 9 * |vs|
    decreases |vs|
  {
    hide Bits;
    if vs != [] {
      BitsLength(vs[0], 8);
      LineLength(vs[1..]);
    }
  }

  lemma {:induction false} BitsLength(v: Byte, k: nat)
    ensures |Bits(v, k)| == k
  {
    if k > 0 { BitsLength(v, k - 1); }
  }

  function ReadMarks(r: Byte, m: nat): seq<Mark> { Preamble(r) + (TakesMarks(m) + FinishMarks()) }

  /** The events in which the bytes are on the line. */
  function Body(es: seq<Event>, r: Byte, m: nat): seq<Event> {
    if |Preamble(r)| + 18 * m <= |es| then es[|Preamble(r)|..][..18 * m] else []
  }

  /** What a read of `vs` puts on the data line: after 28 pulses, the bytes. */
  predicate Carries(samples: seq<bool>, vs: seq<Byte>) {
    28 + 9 * |vs| <= |samples| && samples[28..28 + 9 * |vs|] == Line(vs)
  }

  /** A read by the events of its marks. */
  lemma ReadByEvents(b: Bus, r: Byte, times: seq<Clock>, es: seq<Event>)
    requires b.chips.hasPcf && times != [] && Spells(es, ReadMarks(r, |times|)) && AskedAt(Body(es, r, |times|), times)
    ensures Carries(Samples(b, es), Registers(b.chips.ram, r, times))
    ensures var e := RunEvents(b, es);
            && e == Reset(b).(chips := b.chips.(ram := e.chips.ram, reg := Slot(r, |times|), wantsReg := true))
            && (forall a: nat :: a < 256 && !(1 <= a <= 6) ==> e.chips.ram[a] == b.chips.ram[a])
  {
    hide RunEvents; hide SelectMarks; hide TurnMarks; hide TakesMarks; hide FinishMarks; hide Slot; hide Preamble;
    hide Samples; hide Line; hide Register; hide Spells; hide AskedAt;
    var m, n := |times|, |Preamble(r)|;
    TakesLength(m);
    SpellsSplit(es, Preamble(r), TakesMarks(m) + FinishMarks());
    SpellsSplit(es[n..], TakesMarks(m), FinishMarks());
    var pre, body, post := es[..n], es[n..][..18 * m], es[n..][18 * m..];
    SpellsLength(es, ReadMarks(r, m));
    assert Body(es, r, m) == body;
    assert es == pre + body + post;
    PreambleIs(r);
    ReadTransaction(b, r, times, pre, body, post);
    SamplesAppend(b, pre, body);
    SamplesAppend(b, pre + body, post);
    SamplesCount(b, pre, Preamble(r));
    PreamblePulses(r);
    LineLength(Registers(b.chips.ram, r, times));
  }

  lemma PreambleIs(r: Byte)
    ensures Preamble(r) == SelectMarks(r) + TurnMarks()
  {
    hide SelectMarks; hide TurnMarks;
  }

  /**
   A read on the pins, by any levels whatsoever that make its events: after the preamble the data line
   shows exactly the wanted registers, and the chip keeps everything but the time registers.
   */
  lemma ReadOnPins(b: Bus, oldScl: bool, oldSda: bool, r: Byte, times: seq<Clock>, pins: seq<Pins>)
    requires Sound(b, oldScl) && b.chips.hasPcf && times != []
    requires var es := Events(oldScl, oldSda, pins); Spells(es, ReadMarks(r, |times|)) && AskedAt(Body(es, r, |times|), times)
    ensures Carries(PinSamples(b, oldScl, oldSda, pins), Registers(b.chips.ram, r, times))
    ensures var e := RunPins(b, oldScl, oldSda, pins);
            && e == Reset(b).(chips := b.chips.(ram := e.chips.ram, reg := Slot(r, |times|), wantsReg := true))
            && (forall a: nat :: a < 256 && !(1 <= a <= 6) ==> e.chips.ram[a] == b.chips.ram[a])
  {
    hide Spells; hide Events; hide ReadMarks; hide RunPins; hide PinSamples; hide Carries; hide Registers; hide Slot; hide AskedAt; hide Body; hide Sound;
    PinsAreEvents(b, oldScl, oldSda, pins);
    SamplesAreEvents(b, oldScl, oldSda, pins);
    ReadByEvents(b, r, times, Events(oldScl, oldSda, pins));
  }

  // ---- a waveform that reads ----

  /** The clock is high; the next mark lowers it. */
  predicate Falls(marks: seq<Mark>) { marks != [] && marks[0] == Down && forall sda :: Playable(marks, true, sda) }

  lemma PlayDip(bit: bool, tail: seq<Mark>)
    requires Falls(tail)
    ensures Falls([Down, Up(bit)] + tail)
  {
    var marks := [Down, Up(bit)] + tail;
    assert marks[1..] == [Up(bit)] + tail;
    assert marks[1..][1..] == tail;
    assert Playable(tail, true, bit);
  }

  lemma {:induction false} PlayDips(k: nat, tail: seq<Mark>)
    requires Falls(tail)
    ensures Falls(PulseMarks(k) + tail)
    decreases k
  {
    hide Falls;
    if k == 0 {
      assert PulseMarks(k) + tail == tail;
    } else {
      PlayDips(k - 1, tail);
      PlayDip(true, PulseMarks(k - 1) + tail);
      assert PulseMarks(k) + tail == [Down, Up(true)] + (PulseMarks(k - 1) + tail);
    }
  }

  lemma {:induction false} PlayTakes(m: nat, tail: seq<Mark>)
    requires Falls(tail)
    ensures Falls(TakesMarks(m) + tail)
    decreases m
  {
    hide Falls; hide PulseMarks;
    if m == 0 {
      assert TakesMarks(m) + tail == tail;
    } else {
      PlayTakes(m - 1, tail);
      var rest := TakesMarks(m - 1) + tail;
      PlayDip(m == 1, rest);
      PlayDips(8, [Down, Up(m == 1)] + rest);
      assert TakesMarks(m) + tail == PulseMarks(8) + ([Down, Up(m == 1)] + rest);
    }
  }

  lemma PlayFinish()
    ensures Falls(FinishMarks())
  {
    assert FinishMarks()[1..] == [Up(false), AStop];
    assert FinishMarks()[1..][1..] == [AStop];
    assert FinishMarks()[1..][1..][1..] == [];
  }

  lemma PlayTurn(tail: seq<Mark>)
    requires Falls(tail)
    ensures Rises(TurnMarks() + tail)
  {
    hide BitMarks;
    var answer := [Up(true)] + tail;
    assert answer[1..] == tail;
    assert Playable(tail, true, true);
    assert forall sda :: Playable(answer, false, sda);
    PlayBits(0xA1, 8, answer);
    var bits := BitMarks(0xA1, 8) + answer;
    var marks := [Up(true), AStart, Down] + bits;
    assert TurnMarks() + tail == marks;
    assert marks[1..] == [AStart, Down] + bits;
    assert marks[1..][1..] == [Down] + bits;
    assert marks[1..][1..][1..] == bits;
    assert Playable(bits, false, false);
    assert Playable(marks[1..], true, true);
  }

  lemma PlayRead(r: Byte, m: nat)
    ensures Playable(ReadMarks(r, m), true, true)
  {
    hide ByteMarks; hide TurnMarks; hide TakesMarks; hide FinishMarks; hide Falls;
    var tail := TakesMarks(m) + FinishMarks();
    PlayFinish();
    PlayTakes(m, FinishMarks());
    PlayTurn(tail);
    PlayByte(r, TurnMarks() + tail);
    PlayByte(0xA0, ByteMarks(r) + (TurnMarks() + tail));
    var rest := ByteMarks(0xA0) + (ByteMarks(r) + (TurnMarks() + tail));
    assert Playable(rest, false, false);
    var marks := ReadMarks(r, m);
    assert marks == [AStart, Down] + rest;
    assert marks[1..] == [Down] + rest;
    assert marks[1..][1..] == rest;
  }

  /** All falling edges happen at one time. */
  predicate AllAt(es: seq<Event>, now: Clock) { forall i :: 0 <= i < |es| && es[i].Fall? ==> es[i].now == now }

  lemma AllAtCons(e: Event, es: seq<Event>, now: Clock)
    requires AllAt(es, now) && (e.Fall? ==> e.now == now)
    ensures AllAt([e] + es, now)
  {
  }

  /** The edges of a waveform do. */
  lemma {:induction false} WaveTimes(marks: seq<Mark>, scl: bool, sda: bool, now: Clock)
    requires Playable(marks, scl, sda)
    ensures AllAt(Events(scl, sda, Wave(marks, sda, now)), now)
    decreases |marks|
  {
    hide Events; hide Wave; hide Playable;
    NoWave(scl, sda, now);
    if marks != [] {
      var scl', sda' := SclAfter(marks[0]), SdaAfter(marks[0], sda);
      WaveFirst(marks, scl, sda, now);
      WaveTimes(marks[1..], scl', sda', now);
      AllAtCons(EventFor(marks[0], now), Events(scl', sda', Wave(marks[1..], sda', now)), now);
    }
  }

  /** Each byte taken begins with a falling clock. */
  lemma {:induction false} TakesBegin(m: nat, i: nat)
    requires i < m
    ensures |TakesMarks(m)| == 18 * m && TakesMarks(m)[18 * i] == Down
    decreases m
  {
    hide PulseMarks; hide TakesMarks; hide TakeMarks;
    TakesLength(m);
    TakesFirst(m);
    TakeBegins(m == 1);
    if i > 0 { TakesBegin(m - 1, i - 1); }
  }

  lemma TakeBegins(last: bool)
    ensures |TakeMarks(last)| == 18 && TakeMarks(last)[0] == Down
  {
    hide PulseMarks;
    PulseFirst(8);
    PulseLength(8);
  }

  /** So every read can be clocked out from resting lines, and shows what it should. */
  lemma ReadWave(b: Bus, r: Byte, m: nat, now: Clock)
    requires Sound(b, true) && b.chips.hasPcf && m > 0
    ensures var pins := Wave(ReadMarks(r, m), true, now);
            && Carries(PinSamples(b, true, true, pins), Registers(b.chips.ram, r, seq(m, _ => now)))
            && var e := RunPins(b, true, true, pins);
               && e == Reset(b).(chips := b.chips.(ram := e.chips.ram, reg := Slot(r, m), wantsReg := true))
               && (forall a: nat :: a < 256 && !(1 <= a <= 6) ==> e.chips.ram[a] == b.chips.ram[a])
  {
    hide Events; hide RunPins; hide PinSamples; hide Carries; hide Registers; hide Slot; hide Playable; hide Wave; hide TakesMarks; hide FinishMarks; hide Preamble; hide Sound;
    var pins := Wave(ReadMarks(r, m), true, now);
    var es := Events(true, true, pins);
    PlayRead(r, m);
    WaveSpells(ReadMarks(r, m), true, true, now);
    WaveTimes(ReadMarks(r, m), true, true, now);
    TakesLength(m);
    var times: seq<Clock> := seq(m, _ => now);
    forall i | 0 <= i < m ensures Body(es, r, m)[18 * i] == Fall(now) {
      TakesBegin(m, i);
      var k := |Preamble(r)| + 18 * i;
      assert ReadMarks(r, m)[k] == TakesMarks(m)[18 * i];
      assert MarkOf(es[k]) == Down;
    }
    ReadOnPins(b, true, true, r, times, pins);
  }
}
