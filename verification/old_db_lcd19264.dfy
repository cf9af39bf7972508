/** The driver of old/DB_LCD19264.py (v0.1.6). Its `show()` runs the same
    loops as the current driver; the rotation is an integer `_reverse` stored
    as given and tested for being non-zero. */
module OldDbLcd19264 {
  import opened Bits
  import opened Bus
  import opened Transfer
  import opened Seqs
  import Lcd19264

  datatype OldLcd = OldLcd(buffer: seq<Byte>, reverse: int)

  predicate Valid(d: OldLcd)
  {
    |d.buffer| == 1536
  }

  /** `set_rotation(reverse)`: the value is stored unchanged. */
  function SetRotation(d: OldLcd, reverse: int): OldLcd
  {
    d.(reverse := reverse)
  }

  /** The span of a machine word on a 32-bit port. */
  const WordSpan := 0x1_0000_0000

  /** `int(obj)` inside a `@micropython.viper` function: the integer cut
      down to a signed machine word, wrapping around like the hardware. */
  function ViperInt(v: int): (w: int)
    ensures -0x8000_0000 <= w < 0x8000_0000
    ensures (v - w) % WordSpan == 0
  {
    var a := v + 0x8000_0000;
    assert a == (a / WordSpan) * WordSpan + a % WordSpan;
    a % WordSpan - 0x8000_0000
  }

  /** The cast keeps every value a signed word can hold, and gives zero
      exactly for the multiples of 2^32. */
  lemma ViperIntWord(v: int)
    ensures -0x8000_0000 <= v < 0x8000_0000 ==> ViperInt(v) == v
    ensures ViperInt(v) == 0 <==> v % WordSpan == 0
  {
    var w := ViperInt(v);
    var q := (v - w) / WordSpan;
    assert v - w == q * WordSpan;
    if -0x8000_0000 <= v < 0x8000_0000 || v % WordSpan == 0 {
      MulSign(q, WordSpan);
    }
  }

  /** `show()`: `reverse = int(self._reverse)`, then `if reverse:` takes the
      mirrored, bit-reversed path when the cast value is non-zero. */
  function Show(d: OldLcd): seq<Event>
    requires Valid(d)
  {
    Transfer.Show(d.buffer, ViperInt(d.reverse) != 0)
  }

  /** `clear()`: `fill(0)`, then `show()`. */
  function Clear(d: OldLcd): (OldLcd, seq<Event>)
  {
    var e := d.(buffer := Blank());
    (e, Show(e))
  }

  /** `_init`: the same steps as the current driver's. */
  function Init(d: OldLcd): (OldLcd, seq<Event>)
  {
    (d.(buffer := Blank()),
     [ResetLow, ResetHigh, Select(SelectChip(0)), Command(StartCommand(0)), Command(DisplayOn)])
  }

  /** The older `show()` sends the same trace as the current driver's once
      the stored `_reverse = v` has gone through the viper cast; for every
      value of a signed 32-bit word `_reverse = v` acts as
      `_rotation = bool(v)`. */
  lemma ShowMatchesCurrent(buf: seq<Byte>, v: int, wrap: bool)
    requires |buf| == 1536
    ensures Show(SetRotation(OldLcd(buf, 0), v)) ==
      Lcd19264.Show(Lcd19264.SetRotation(Lcd19264.Lcd(buf, false, wrap), ViperInt(v)))
    ensures -0x8000_0000 <= v < 0x8000_0000 ==>
      Show(SetRotation(OldLcd(buf, 0), v)) ==
      Lcd19264.Show(Lcd19264.SetRotation(Lcd19264.Lcd(buf, false, wrap), v))
  {
    ViperIntWord(v);
  }

  /** The raw value is kept; the transfer is rotated exactly when the value
      is not a multiple of 2^32, so all such values give the same trace. */
  lemma RotationRaw(d: OldLcd, v: int, w: int)
    requires Valid(d)
    ensures SetRotation(d, v).reverse == v
    ensures Show(SetRotation(d, v)) == Transfer.Show(d.buffer, v % WordSpan != 0)
    ensures v % WordSpan != 0 && w % WordSpan != 0 ==> Show(SetRotation(d, v)) == Show(SetRotation(d, w))
  {
    ViperIntWord(v);
    ViperIntWord(w);
  }

  /** `set_rotation(2**32)` on a 32-bit port: the older driver's cast wraps to
      zero and sends the unrotated transfer, where the current driver's
      `bool(2**32)` rotates. */
  lemma RotationWraps(buf: seq<Byte>, wrap: bool)
    requires |buf| == 1536
    ensures Show(SetRotation(OldLcd(buf, 0), WordSpan)) == Transfer.Show(buf, false)
    ensures Lcd19264.Show(Lcd19264.SetRotation(Lcd19264.Lcd(buf, false, wrap), WordSpan)) == Transfer.Show(buf, true)
  {
    ViperIntWord(WordSpan);
  }

  /** `clear()` blanks the buffer, keeps `_reverse`, and sends 1536 zero data
      bytes whatever the rotation, with the usual 24 data-mode entries. */
  lemma ClearSendsZeros(d: OldLcd)
    ensures Valid(Clear(d).0) && Clear(d).0.reverse == d.reverse
    ensures forall i :: 0 <= i < 1536 ==> Clear(d).0.buffer[i] == 0
    ensures |Strobed(Clear(d).1)| == 1536
    ensures forall k :: 0 <= k < 1536 ==> Strobed(Clear(d).1)[k] == 0
    ensures ModeSets(Clear(d).1) == 24
  {
    ShowZeros(Blank(), ViperInt(d.reverse) != 0);
    ShowControl(Blank(), ViperInt(d.reverse) != 0);
  }

  /** Both drivers' `_init` send the same trace and leave a blank buffer. */
  lemma InitMatchesCurrent(d: OldLcd, e: Lcd19264.Lcd)
    ensures Init(d).1 == Lcd19264.Init(e).1
    ensures Init(d).0.buffer == Lcd19264.Init(e).0.buffer
  {
  }
}
