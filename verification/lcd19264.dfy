/** The driver object of lcd19264.py (v0.1.10), reduced to the state the
    transfer and the layout helpers use: the frame buffer, the rotation flag
    and the text-wrap flag. The pins, the font and the palette frame buffer
    are not state here. */
module Lcd19264 {
  import opened Bits
  import opened Bus
  import opened Transfer

  datatype Lcd = Lcd(buffer: seq<Byte>, rotation: bool, textWrap: bool)

  /** The buffer is `bytearray(LCD_BUFFSIZE)`. */
  predicate Valid(d: Lcd)
  {
    |d.buffer| == 1536
  }

  /** `_init`: pulse reset, clear the frame buffer, `_select_chip(0)`, start
      line 0, display on. The waits are not modelled. */
  function Init(d: Lcd): (Lcd, seq<Event>)
  {
    (d.(buffer := Blank()),
     [ResetLow, ResetHigh, Select(SelectChip(0)), Command(StartCommand(0)), Command(DisplayOn)])
  }

  /** After `_init` the buffer is blank and the other flags are kept; the
      reset pulse comes first, then one chip-select state that activates all
      three chips, then start line 0 and display on, in that order. */
  lemma InitEffect(d: Lcd)
    ensures Valid(Init(d).0)
    ensures forall i :: 0 <= i < 1536 ==> Init(d).0.buffer[i] == 0
    ensures Init(d).0.rotation == d.rotation && Init(d).0.textWrap == d.textWrap
    ensures |Init(d).1| == 5
    ensures Init(d).1[0] == ResetLow && Init(d).1[1] == ResetHigh
    ensures Init(d).1[2].Select? && Init(d).1[3].Command? && Init(d).1[4].Command?
    ensures |Selections(Init(d).1)| == 1 && Selected(Selections(Init(d).1)[0]) == {1, 2, 3}
    ensures |Commands(Init(d).1)| == 2
    ensures Meaning(Commands(Init(d).1)[0]) == SetStart(0)
    ensures Meaning(Commands(Init(d).1)[1]) == Display(true)
    ensures Strobed(Init(d).1) == [] && ModeSets(Init(d).1) == 0
  {
    var t := Init(d).1;
    assert t == [ResetLow, ResetHigh] + [Select(SelectChip(0))] + [Command(StartCommand(0)), Command(DisplayOn)];
    ProjectionsAppend([ResetLow, ResetHigh] + [Select(SelectChip(0))], [Command(StartCommand(0)), Command(DisplayOn)]);
    ProjectionsAppend([ResetLow, ResetHigh], [Select(SelectChip(0))]);
    ProjectionsOfPair(ResetLow, ResetHigh);
    ProjectionsOfOne(Select(SelectChip(0)));
    ProjectionsOfPair(Command(StartCommand(0)), Command(DisplayOn));
    SelectChipSelects(0);
    CommandEncoding(0, 0, 0);
  }

  /** `set_rotation(rotation)` stores `bool(rotation)`. */
  function SetRotation(d: Lcd, rotation: int): (r: Lcd)
  {
    d.(rotation := rotation != 0)
  }

  /** `set_text_wrap(on)` stores `bool(on)`. */
  function SetTextWrap(d: Lcd, on: int): (r: Lcd)
  {
    d.(textWrap := on != 0)
  }

  /** `set_rotation` changes the rotation flag only, and turns it on exactly
      for a non-zero argument. */
  lemma SetRotationKeeps(d: Lcd, v: int)
    ensures SetRotation(d, v).buffer == d.buffer && SetRotation(d, v).textWrap == d.textWrap
    ensures SetRotation(d, v).rotation <==> v != 0
  {
  }

  /** `set_text_wrap` changes the wrap flag only, and turns it on exactly
      for a non-zero argument. */
  lemma SetTextWrapKeeps(d: Lcd, v: int)
    ensures SetTextWrap(d, v).buffer == d.buffer && SetTextWrap(d, v).rotation == d.rotation
    ensures SetTextWrap(d, v).textWrap <==> v != 0
  {
  }

  /** `show()`: the transfer of the buffer with the stored rotation. */
  function Show(d: Lcd): seq<Event>
    requires Valid(d)
  {
    Transfer.Show(d.buffer, d.rotation)
  }

  /** What `show()` sends, read off its trace: the 1536 data bytes of the
      buffer in chip, page, address order (mirrored and bit-reversed when
      rotated), 24 data-mode entries, and only control commands otherwise. */
  lemma ShowEffect(d: Lcd)
    requires Valid(d)
    ensures |Strobed(Show(d))| == 1536
    ensures forall k :: 0 <= k < 1536 ==>
      Strobed(Show(d))[k] ==
      (if d.rotation then ReverseBits(d.buffer[1535 - ScanOffset(k)]) else d.buffer[ScanOffset(k)])
    ensures ModeSets(Show(d)) == 24
    ensures |Commands(Show(d))| == 29
  {
    ShowTransmits(d.buffer, d.rotation);
    ShowControl(d.buffer, d.rotation);
  }
}
