/** The bit-banged I2C master, pin write by pin write, against what a slave decodes from the two
    wires by the rules of the I2C-bus specification (UM10204, sections 3.1.3 to 3.1.6): SDA falling
    while SCL is high is a START, SDA rising while SCL is high a STOP, and after a START every nine
    rising edges of SCL carry eight data bits, most significant first, and an acknowledge. */
module I2c {

  // ---------------------------------------------------------------- bits and bytes

  function Shifted(value: bv8, bit: bool): bv8 {
    (value << 1) | if bit then 1 else 0
  }

  /** Eight bits read most significant first. */
  function Value(bits: seq<bool>): bv8 {
    if bits == [] then 0 else Shifted(Value(bits[..|bits| - 1]), bits[|bits| - 1])
  }

  function Mask(i: nat): bv8
    requires i < 8
  {
    match i
    case 0 => 0x80
    case 1 => 0x40
    case 2 => 0x20
    case 3 => 0x10
    case 4 => 0x08
    case 5 => 0x04
    case 6 => 0x02
    case 7 => 0x01
  }

  /** The first i bits of data. */
  function BitsOf(data: bv8, i: nat): (bits: seq<bool>)
    requires i <= 8
    ensures |bits| == i
  {
    seq(i, k requires 0 <= k < i => data & Mask(k) != 0)
  }

  lemma BitsOneMore(data: bv8, i: nat)
    requires i < 8
    ensures BitsOf(data, i + 1) == BitsOf(data, i) + [data & Mask(i) != 0]
  {
  }

  function High(data: bv8, i: nat): bv8
    requires i <= 8
  {
    match i
    case 0 => 0
    case 1 => data >> 7
    case 2 => data >> 6
    case 3 => data >> 5
    case 4 => data >> 4
    case 5 => data >> 3
    case 6 => data >> 2
    case 7 => data >> 1
    case 8 => data
  }

  lemma HighStep(data: bv8, i: nat)
    requires i < 8
    ensures Shifted(High(data, i), data & Mask(i) != 0) == High(data, i + 1)
  {
  }

  lemma {:induction false} ValueOfBits(data: bv8, i: nat)
    requires i <= 8
    ensures Value(BitsOf(data, i)) == High(data, i)
    decreases i
  {
    if i > 0 {
      ValueOfBits(data, i - 1);
      HighStep(data, i - 1);
      assert BitsOf(data, i)[..i - 1] == BitsOf(data, i - 1);
    }
  }

  // ---------------------------------------------------------------- what a slave hears

  datatype Item = Started | Byte(value: bv8, ack: bool) | Stopped

  datatype Listener = Listener(listening: bool, bits: seq<bool>, heard: seq<Item>)

  /** The wires go from (scl0, sda0) to (scl1, sda1). */
  function Observe(l: Listener, scl0: bool, sda0: bool, scl1: bool, sda1: bool): Listener {
    if scl0 && scl1 && sda0 && !sda1 then Listener(true, [], l.heard + [Started])
    else if scl0 && scl1 && !sda0 && sda1 then Listener(false, [], l.heard + [Stopped])
    else if !scl0 && scl1 && l.listening then
      if |l.bits| == 8 then Listener(true, [], l.heard + [Byte(Value(l.bits), !sda1)])
      else l.(bits := l.bits + [sda1])
    else l
  }

  // ---------------------------------------------------------------- the master

  class Master {
    /** What the slave lets SDA be at each clock at which the master does not drive it. */
    const slave: seq<bool>
    var clocks: nat
    var scl: bool
    var latch: bool
    var output: bool
    var listener: Listener

    function SlaveBit(k: nat): bool {
      if k < |slave| then slave[k] else true
    }

    function Sda(): bool
      reads this
    {
      if output then latch else SlaveBit(clocks)
    }

    /** Between calls: SCL low, or the bus idle as i2c_stop leaves it. */
    predicate Ready()
      reads this
    {
      listener.bits == [] && (scl ==> output && latch)
    }

    /** In the middle of a transfer, between bytes. */
    predicate Between()
      reads this
    {
      !scl && listener.listening && listener.bits == []
    }

    constructor (slave: seq<bool>)
      ensures this.slave == slave && Ready() && clocks == 0 && listener == Listener(false, [], [])
    {
      this.slave := slave;
      clocks, scl, latch, output, listener := 0, false, false, false, Listener(false, [], []);
    }

    method SetDirection(out: bool)
      modifies `output, `listener
      ensures output == out && listener == Observe(old(listener), scl, old(Sda()), scl, Sda())
    {
      var sda := Sda();
      output := out;
      listener := Observe(listener, scl, sda, scl, Sda());
    }

    method SetSda(high: bool)
      modifies `latch, `listener
      ensures latch == high && listener == Observe(old(listener), scl, old(Sda()), scl, Sda())
    {
      var sda := Sda();
      latch := high;
      listener := Observe(listener, scl, sda, scl, Sda());
    }

    /** The slave moves on to its next bit when SCL falls. */
    method SetScl(high: bool)
      modifies `scl, `clocks, `listener
      ensures scl == high && clocks == old(clocks) + (if old(scl) && !high && !output then 1 else 0)
      ensures listener == Observe(old(listener), old(scl), old(Sda()), scl, Sda())
    {
      var scl0, sda0 := scl, Sda();
      if scl && !high && !output {
        clocks := clocks + 1;
      }
      scl := high;
      listener := Observe(listener, scl0, sda0, scl, Sda());
    }

    /** i2c_start: one START and nothing else. */
    method StartCondition()
      requires Ready()
      modifies this
      ensures Between() && listener.heard == old(listener.heard) + [Started] && clocks == old(clocks)
    {
      SetDirection(true);
      SetSda(true);
      SetScl(true);
      SetSda(false);
      SetScl(false);
    }

    /** i2c_stop: one STOP and nothing else. */
    method StopCondition()
      requires Between()
      modifies this
      ensures Ready() && listener == Listener(false, [], old(listener.heard) + [Stopped]) && clocks == old(clocks)
    {
      SetDirection(true);
      SetSda(false);
      SetScl(true);
      SetSda(true);
    }

    /** One bit of i2c_write: SDA changes only while SCL is low, and SCL rises once. */
    method SendBit(bit: bool)
      requires !scl && output && listener.listening && |listener.bits| < 8
      modifies this
      ensures !scl && output && clocks == old(clocks)
      ensures listener == old(listener).(bits := old(listener.bits) + [bit])
    {
      SetScl(false);
      SetSda(bit);
      SetScl(true);
      SetScl(false);
    }

    /** The loop of i2c_write. */
    method SendBits(data: bv8)
      requires Between()
      modifies this
      ensures !scl && output && clocks == old(clocks)
      ensures listener == Listener(true, BitsOf(data, 8), old(listener.heard))
    {
      var mask := 0x80;
      SetDirection(true);
      for i := 0 to 8
        invariant !scl && output && clocks == old(clocks) && (i < 8 ==> mask == Mask(i))
        invariant listener == Listener(true, BitsOf(data, i), old(listener.heard))
      {
        SendBit(data & mask != 0);
        mask := mask >> 1;
        BitsOneMore(data, i);
      }
    }

    /** i2c_write: the slave hears exactly the byte, and the result is its acknowledge. */
    method WriteByte(data: bv8) returns (ack: bool)
      requires Between()
      modifies this
      ensures Between() && listener.heard == old(listener.heard) + [Byte(data, ack)]
      ensures ack == !SlaveBit(old(clocks)) && clocks == old(clocks) + 1
    {
      SendBits(data);
      ValueOfBits(data, 8);
      SetDirection(false);
      SetScl(true);
      ack := !Sda();
      SetScl(false);
    }

    /** The next n bits the slave gives. */
    function SlaveBits(from: nat, n: nat): (bits: seq<bool>)
      ensures |bits| == n
    {
      seq(n, k requires 0 <= k < n => SlaveBit(from + k))
    }

    /** i2c_read: the result is the byte the slave gives, in nine clocks of which the last carries
        the master's acknowledge. */
    method ReadByte(ack: bool) returns (data: bv8)
      requires Between()
      modifies this
      ensures Between() && listener.heard == old(listener.heard) + [Byte(data, ack)]
      ensures data == Value(SlaveBits(old(clocks), 8)) && clocks == old(clocks) + 8
    {
      data := 0;
      SetDirection(false);
      SetScl(false);
      for i := 0 to 8
        invariant !scl && !output && clocks == old(clocks) + i && data == Value(SlaveBits(old(clocks), i))
        invariant listener == Listener(true, SlaveBits(old(clocks), i), old(listener.heard))
      {
        data := data << 1;
        SetScl(true);
        if Sda() {
          data := data | 1;
        }
        SetScl(false);
        assert SlaveBits(old(clocks), i + 1)[..i] == SlaveBits(old(clocks), i);
      }
      SetScl(false);
      SetDirection(true);
      SetSda(!ack);
      SetScl(true);
      SetScl(false);
      SetSda(false);
    }

    // -------------------------------------------------------------- transfers

    /** Whether the slave acknowledges the k-th byte written from clock c on. */
    function Acks(c: nat, k: nat): bool {
      !SlaveBit(c + k)
    }

    /** The first n of the bytes as the slave hears them. */
    function Frames(bytes: seq<bv8>, n: nat, c: nat): (items: seq<Item>)
      requires n <= |bytes|
      ensures |items| == n
    {
      seq(n, k requires 0 <= k < n => Byte(bytes[k], Acks(c, k)))
    }

    /** How many bytes are written: up to the first that is not acknowledged, and that one too. */
    function Reach(n: nat, c: nat, k: nat): (r: nat)
      requires k <= n
      ensures k <= r <= n
      decreases n - k
    {
      if k == n then n else if !Acks(c, k) then k + 1 else Reach(n, c, k + 1)
    }

    predicate AllAcked(n: nat, c: nat) {
      forall k :: 0 <= k < n ==> Acks(c, k)
    }

    lemma {:induction false} ReachStep(n: nat, c: nat, k: nat)
      requires k <= n && AllAcked(k, c)
      ensures Reach(n + 1, c, k) == if AllAcked(n, c) then n + 1 else Reach(n, c, k)
      ensures AllAcked(n, c) ==> Reach(n, c, k) == n
      ensures AllAcked(n + 1, c) == (AllAcked(n, c) && Acks(c, n))
      decreases n - k
    {
      if k < n && Acks(c, k) { ReachStep(n, c, k + 1); }
    }

    /** Of the bytes, k have had their turn since clock c, when `before` had been heard. */
    ghost predicate Sending(success: bool, bytes: seq<bv8>, k: nat, c: nat, before: seq<Item>)
      reads this
    {
      && Between() && k <= |bytes| && success == AllAcked(k, c)
      && clocks == c + Reach(k, c, 0) && listener.heard == before + Frames(bytes, Reach(k, c, 0), c)
    }

    /** The next byte of a transfer, written if all before it were acknowledged. */
    method WriteNext(ok: bool, bytes: seq<bv8>, k: nat, ghost c: nat, ghost before: seq<Item>) returns (success: bool)
      requires Sending(ok, bytes, k, c, before) && k < |bytes|
      modifies this
      ensures Sending(success, bytes, k + 1, c, before)
    {
      ReachStep(k, c, 0);
      success := ok;
      if ok {
        ghost var heard := listener.heard;
        success := WriteByte(bytes[k]);
        assert Frames(bytes, k + 1, c) == Frames(bytes, k, c) + [Byte(bytes[k], success)];
      }
    }

    /** I2C_MultipleWrite; I2C_Write is the case of one data byte. */
    method MultipleWrite(device: bv8, control: bv8, data: seq<bv8>) returns (success: bool)
      requires Ready()
      modifies this
      ensures Ready()
      ensures var bytes, c := [device, control] + data, old(clocks);
        && success == AllAcked(|bytes|, c)
        && listener.heard == old(listener.heard) + [Started] + Frames(bytes, Reach(|bytes|, c, 0), c) + [Stopped]
    {
      var bytes := [device, control] + data;
      ghost var c, before := clocks, listener.heard + [Started];
      StartCondition();
      success := true;
      for i := 0 to |bytes|
        invariant Sending(success, bytes, i, c, before)
      {
        success := WriteNext(success, bytes, i, c, before);
      }
      StopCondition();
    }

    /** The n bytes the slave gives from clock c on. */
    function Given(c: nat, n: nat): (data: seq<bv8>)
      ensures |data| == n
    {
      seq(n, k requires 0 <= k < n => Value(SlaveBits(c + 8 * k, 8)))
    }

    /** As the slave hears them read: all but the last of `len` acknowledged. */
    function ReadFrames(c: nat, n: nat, len: nat): (items: seq<Item>)
      ensures |items| == n
    {
      seq(n, k requires 0 <= k < n => Byte(Value(SlaveBits(c + 8 * k, 8)), k != len - 1))
    }

    /** What the slave has heard after I2C_MultipleRead from clock c on, when it had heard `before`. */
    function ReadTranscript(before: seq<Item>, device: bv8, control: bv8, len: nat, c: nat): seq<Item> {
      var head := before + [Started] + Frames([device, control], Reach(2, c, 0), c);
      if !AllAcked(2, c) then head + [Stopped]
      else
        var again := head + [Started] + [Byte(device | 1, Acks(c, 2))];
        if Acks(c, 2) then again + ReadFrames(c + 3, len, len) + [Stopped] else again + [Stopped]
    }

    /** START, the device and the sub-address. */
    method Select(device: bv8, control: bv8) returns (success: bool)
      requires Ready()
      modifies this
      ensures Sending(success, [device, control], 2, old(clocks), old(listener.heard) + [Started])
    {
      ghost var c, before := clocks, listener.heard + [Started];
      StartCondition();
      assert Frames([device, control], 0, c) == [];
      success := WriteNext(true, [device, control], 0, c, before);
      success := WriteNext(success, [device, control], 1, c, before);
    }

    /** The loop of I2C_MultipleRead. */
    method ReadAll(len: nat) returns (buf: seq<bv8>)
      requires Between()
      modifies this
      ensures Between() && buf == Given(old(clocks), len)
      ensures listener.heard == old(listener.heard) + ReadFrames(old(clocks), len, len)
    {
      buf := [];
      ghost var c, before := clocks, listener.heard;
      for i := 0 to len
        invariant Between() && clocks == c + 8 * i
        invariant buf == Given(c, i) && listener.heard == before + ReadFrames(c, i, len)
      {
        var data := ReadByte(i != len - 1);
        buf := buf + [data];
        assert ReadFrames(c, i + 1, len) == ReadFrames(c, i, len) + [Byte(data, i != len - 1)];
      }
    }

    /** I2C_MultipleRead. */
    method MultipleRead(device: bv8, control: bv8, len: nat) returns (success: bool, buf: seq<bv8>)
      requires Ready()
      modifies this
      ensures Ready()
      ensures success == AllAcked(3, old(clocks)) && buf == (if success then Given(old(clocks) + 3, len) else [])
      ensures listener.heard == ReadTranscript(old(listener.heard), device, control, len, old(clocks))
    {
      ghost var c := clocks;
      success := Select(device, control);
      ReachStep(2, c, 0);
      buf := [];
      if success {
        StartCondition();
        success := WriteByte(device | 1);
      }
      if success {
        buf := ReadAll(len);
      }
      StopCondition();
    }

    /** After I2C_Read, which starts again even when the slave did not answer. */
    function ReadOneTranscript(before: seq<Item>, device: bv8, control: bv8, c: nat): seq<Item> {
      var again := before + [Started] + Frames([device, control], Reach(2, c, 0), c) + [Started];
      if !AllAcked(2, c) then again + [Stopped]
      else
        var named := again + [Byte(device | 1, Acks(c, 2))];
        if Acks(c, 2) then named + [Byte(Value(SlaveBits(c + 3, 8)), false)] + [Stopped] else named + [Stopped]
    }

    /** I2C_Read. */
    method ReadOne(device: bv8, control: bv8) returns (success: bool, data: bv8)
      requires Ready()
      modifies this
      ensures Ready()
      ensures success == AllAcked(3, old(clocks)) && (success ==> data == Value(SlaveBits(old(clocks) + 3, 8)))
      ensures listener.heard == ReadOneTranscript(old(listener.heard), device, control, old(clocks))
    {
      ghost var c := clocks;
      success := Select(device, control);
      ReachStep(2, c, 0);
      data := 0;
      StartCondition();
      if success {
        success := WriteByte(device | 1);
      }
      if success {
        data := ReadByte(false);
      }
      StopCondition();
    }
  }
}
