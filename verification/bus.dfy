/** The bus and control interface shared by the three driver versions: the
    8-line data bus, the three active-low chip-select lines, the controller's
    instruction codes, and the events a transfer is made of. */
module Bus {
  import opened Bits
  import opened Seqs

  datatype Level = Low | High

  /** Levels of CS1, CS2 and CS3. A line held Low selects its chip. */
  datatype ChipLines = ChipLines(cs1: Level, cs2: Level, cs3: Level)

  /** One step of bus traffic as the drivers produce it.
      - `Command(code)` is `_write_cmd(code)`: RS=0, RW=0, `code` on the data
        lines, one enable pulse. It records the value passed in.
      - `DataMode` is `rs.on(); rw.off()`: data-write mode, no pulse.
      - `Strobe(data)` puts `data` on the data lines and pulses enable.
      - `_write_data(v)` is `DataMode` followed by `Strobe(v)`. */
  datatype Event =
    | ResetLow
    | ResetHigh
    | Select(lines: ChipLines)
    | Command(code: int)
    | DataMode
    | Strobe(data: Byte)

  /** Instruction codes of the controller. */
  const DisplayOn := 0x3F
  const DisplayOff := 0x3E
  const AddrY := 0x40
  const AddrX := 0xB8
  const AddrZ := 0xC0
  const Empty := 0x00

  /** Level of chip-select line `i` (1, 2 or 3). */
  function Line(c: ChipLines, i: int): Level
  {
    if i == 1 then c.cs1 else if i == 2 then c.cs2 else c.cs3
  }

  /** The chips a chip-select state activates. */
  function Selected(c: ChipLines): (s: set<int>)
    ensures s <= {1, 2, 3}
    ensures forall i :: i in s <==> 1 <= i <= 3 && Line(c, i) == Low
  {
    (if c.cs1 == Low then {1} else {}) + (if c.cs2 == Low then {2} else {}) +
    (if c.cs3 == Low then {3} else {})
  }

  /** `_select_chip(chip)`. Chips 1, 2 and 3 get their own line low and the
      other two high; every other value takes all three lines low, which
      selects every chip at once. */
  function SelectChip(chip: int): (c: ChipLines)
    ensures forall i :: 1 <= i <= 3 ==> (Line(c, i) == Low <==> i == chip || chip !in {1, 2, 3})
  {
    if chip == 1 then ChipLines(Low, High, High)
    else if chip == 2 then ChipLines(High, Low, High)
    else if chip == 3 then ChipLines(High, High, Low)
    else ChipLines(Low, Low, Low)
  }

  /** Which chips a `_select_chip` call leaves selected. */
  lemma SelectChipSelects(chip: int)
    ensures 1 <= chip <= 3 ==> Selected(SelectChip(chip)) == {chip}
    ensures !(1 <= chip <= 3) ==> Selected(SelectChip(chip)) == {1, 2, 3}
  {
  }

  /** `_set_address(y)`: column address command. */
  function ColumnCommand(y: int): int { AddrY + y }

  /** `_set_page(x)`: page (row band) address command. */
  function PageCommand(x: int): int { AddrX + x }

  /** `_set_start(z)`: display start line command. */
  function StartCommand(z: int): int { AddrZ + z }

  /** What the controller takes a code to mean, read back from the code alone. */
  datatype Instruction =
    | SetColumn(y: nat)
    | SetPage(x: nat)
    | SetStart(z: nat)
    | Display(on: bool)
    | Other

  function Meaning(code: int): Instruction
  {
    if code == DisplayOn then Display(true)
    else if code == DisplayOff then Display(false)
    else if 0x40 <= code < 0x80 then SetColumn(code - 0x40)
    else if 0xB8 <= code < 0xC0 then SetPage(code - 0xB8)
    else if 0xC0 <= code < 0x100 then SetStart(code - 0xC0)
    else Other
  }

  /** On their documented ranges the three encoders give single bytes in
      disjoint bands, and each code is read back as the argument it encodes. */
  lemma CommandEncoding(y: int, x: int, z: int)
    requires 0 <= y < 64 && 0 <= x < 8 && 0 <= z < 64
    ensures 0x40 <= ColumnCommand(y) <= 0x7F
    ensures 0xB8 <= PageCommand(x) <= 0xBF
    ensures 0xC0 <= StartCommand(z) <= 0xFF
    ensures Meaning(ColumnCommand(y)) == SetColumn(y)
    ensures Meaning(PageCommand(x)) == SetPage(x)
    ensures Meaning(StartCommand(z)) == SetStart(z)
    ensures Meaning(DisplayOn) == Display(true)
  {
  }

  /** `_write_data_bus(data)`: line `i` is driven high exactly when bit `i` of
      `data` is set (`data & (1 << i)` is non-zero). */
  function WriteDataBus(data: Byte): (lines: seq<bool>)
    ensures |lines| == 8
    ensures forall i :: 0 <= i < 8 ==> lines[i] == Bit(data, i)
  {
    BitsOf(data, 8)
  }

  /** `_read_data_bus()`: line `i` contributes bit `i`. The terms are distinct
      powers of two, so the driver's `|=` is a sum. */
  function ReadDataBus(lines: seq<bool>): int
    requires |lines| == 8
  {
    (if lines[0] then 1 else 0) + (if lines[1] then 2 else 0) +
    (if lines[2] then 4 else 0) + (if lines[3] then 8 else 0) +
    (if lines[4] then 16 else 0) + (if lines[5] then 32 else 0) +
    (if lines[6] then 64 else 0) + (if lines[7] then 128 else 0)
  }

  /** Reading back what was written returns the byte, and writing what was
      read reproduces the line levels. */
  lemma DataBusRoundTrip(data: Byte, lines: seq<bool>)
    requires |lines| == 8
    ensures ReadDataBus(WriteDataBus(data)) == data
    ensures 0 <= ReadDataBus(lines) < 256
    ensures WriteDataBus(ReadDataBus(lines)) == lines
  {
    ValueOfEight(WriteDataBus(data));
    ValueOfBits(data, 8);
    ValueOfEight(lines);
    BitsOfValue(lines);
  }

  lemma {:induction false} ValueSnoc(s: seq<bool>, b: bool)
    ensures Value(s + [b]) == Value(s) + (if b then Pow2(|s|) else 0)
  {
    if |s| == 0 {
      assert s + [b] == [b];
      assert [b][1..] == [];
    } else {
      assert (s + [b])[0] == s[0];
      assert (s + [b])[1..] == s[1..] + [b];
      ValueSnoc(s[1..], b);
    }
  }

  /** `_write_data_bus` of the loop-based driver: `for i in range(8)` sets
      line `i` from `data & (1 << i)`. */
  method WriteDataBusLoop(data: Byte) returns (lines: seq<bool>)
    ensures |lines| == 8
    ensures forall i :: 0 <= i < 8 ==> lines[i] == Bit(data, i)
  {
    lines := [];
    for i := 0 to 8
      invariant |lines| == i
      invariant forall j :: 0 <= j < i ==> lines[j] == Bit(data, j)
    {
      lines := lines + [Bit(data, i)];
    }
  }

  /** `_read_data_bus` of the loop-based driver: `data |= line_i << i` for
      `i` in `range(8)`. Bit `i` of `data` is still clear when line `i` is
      added, so `|=` is a sum. */
  method ReadDataBusLoop(lines: seq<bool>) returns (data: int)
    requires |lines| == 8
    ensures 0 <= data < 256
    ensures WriteDataBus(data) == lines
  {
    data := 0;
    for i := 0 to 8
      invariant data == Value(lines[..i])
    {
      assert lines[..i + 1] == lines[..i] + [lines[i]];
      ValueSnoc(lines[..i], lines[i]);
      data := data + (if lines[i] then Pow2(i) else 0);
    }
    assert lines[..8] == lines;
    BitsOfValue(lines);
  }

  /** Both versions of the bus primitives agree, so the loop version also
      round-trips. */
  method BusLoopRoundTrip(data: Byte) returns (back: int)
    ensures back == data
  {
    var lines := WriteDataBusLoop(data);
    back := ReadDataBusLoop(lines);
    assert lines == WriteDataBus(data);
    DataBusRoundTrip(data, lines);
    assert WriteDataBus(back) == WriteDataBus(data);
    DataBusRoundTrip(back, lines);
  }

  /** `_write_data(v)`: data-write mode, then `v` latched by one enable pulse. */
  function WriteData(v: Byte): seq<Event> { [DataMode, Strobe(v)] }

  function StrobeData(e: Event): seq<Byte> { if e.Strobe? then [e.data] else [] }
  function CommandCode(e: Event): seq<int> { if e.Command? then [e.code] else [] }
  function SelectLines(e: Event): seq<ChipLines> { if e.Select? then [e.lines] else [] }
  function ModeSet(e: Event): seq<Event> { if e.DataMode? then [e] else [] }

  /** The bytes latched by enable pulses outside commands, in order. */
  function Strobed(t: seq<Event>): seq<Byte> { Project(t, StrobeData) }

  /** The command codes written, in order. */
  function Commands(t: seq<Event>): seq<int> { Project(t, CommandCode) }

  /** The chip-select states driven, in order. */
  function Selections(t: seq<Event>): seq<ChipLines> { Project(t, SelectLines) }

  /** How many times data-write mode (RS=1, RW=0) is entered. */
  function ModeSets(t: seq<Event>): nat { |Project(t, ModeSet)| }

  /** All four projections distribute over concatenation. */
  lemma ProjectionsAppend(a: seq<Event>, b: seq<Event>)
    ensures Strobed(a + b) == Strobed(a) + Strobed(b)
    ensures Commands(a + b) == Commands(a) + Commands(b)
    ensures Selections(a + b) == Selections(a) + Selections(b)
    ensures ModeSets(a + b) == ModeSets(a) + ModeSets(b)
  {
    ProjectAppend(a, b, StrobeData);
    ProjectAppend(a, b, CommandCode);
    ProjectAppend(a, b, SelectLines);
    ProjectAppend(a, b, ModeSet);
  }

  /** The projections of a one-event trace. */
  lemma ProjectionsOfOne(x: Event)
    ensures Strobed([x]) == StrobeData(x)
    ensures Commands([x]) == CommandCode(x)
    ensures Selections([x]) == SelectLines(x)
    ensures ModeSets([x]) == |ModeSet(x)|
  {
    ProjectSingle(x, StrobeData);
    ProjectSingle(x, CommandCode);
    ProjectSingle(x, SelectLines);
    ProjectSingle(x, ModeSet);
  }

  /** The projections of a two-event trace. */
  lemma ProjectionsOfPair(x: Event, y: Event)
    ensures Strobed([x, y]) == StrobeData(x) + StrobeData(y)
    ensures Commands([x, y]) == CommandCode(x) + CommandCode(y)
    ensures Selections([x, y]) == SelectLines(x) + SelectLines(y)
    ensures ModeSets([x, y]) == |ModeSet(x)| + |ModeSet(y)|
  {
    assert [x, y] == [x] + [y];
    ProjectionsAppend([x], [y]);
    ProjectionsOfOne(x);
    ProjectionsOfOne(y);
  }

  /** `_write_data(v)` latches `v` once and enters data-write mode once. */
  lemma WriteDataProjections(v: Byte)
    ensures Strobed(WriteData(v)) == [v]
    ensures Commands(WriteData(v)) == [] && Selections(WriteData(v)) == []
    ensures ModeSets(WriteData(v)) == 1
  {
    ProjectionsOfPair(DataMode, Strobe(v));
  }

  /** Appending one command adds its code and nothing else. */
  lemma AppendCommand(t: seq<Event>, code: int)
    ensures Commands(t + [Command(code)]) == Commands(t) + [code]
    ensures Strobed(t + [Command(code)]) == Strobed(t)
    ensures Selections(t + [Command(code)]) == Selections(t)
    ensures ModeSets(t + [Command(code)]) == ModeSets(t)
  {
    ProjectionsAppend(t, [Command(code)]);
    ProjectionsOfOne(Command(code));
  }
}
