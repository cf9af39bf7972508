/** The driver of DB_LCD19264.py (v0.1.3): no rotation, a loop-based data
    bus, two transfers (`show2`, one `_write_data` per byte, and `show`,
    data-write mode once per page) and a `clear()` that writes zeros to the
    panel directly. */
module DbLcd19264 {
  import opened Bits
  import opened Seqs
  import opened Bus
  import Transfer
  import Lcd19264

  /** `pos = address + (page * 192) + (chip * 64)`. */
  function Pos(chip: int, page: int, address: int): int
  {
    address + page * 192 + chip * 64
  }

  // ---------------------------------------------------------------------------
  // show(): data-write mode once per page

  function ShowPage(buf: seq<Byte>, chip: int, page: int): seq<Event>
    requires |buf| == 1536 && 0 <= chip < 3 && 0 <= page < 8
  {
    [Command(PageCommand(page)), DataMode] +
    seq(64, address requires 0 <= address < 64 => Strobe(buf[Pos(chip, page, address)]))
  }

  function ShowPages(buf: seq<Byte>, chip: int): seq<seq<Event>>
    requires |buf| == 1536 && 0 <= chip < 3
  {
    seq(8, page requires 0 <= page < 8 => ShowPage(buf, chip, page))
  }

  function ShowChip(buf: seq<Byte>, chip: int): seq<Event>
    requires |buf| == 1536 && 0 <= chip < 3
  {
    [Select(SelectChip(chip + 1))] + Flatten(ShowPages(buf, chip))
  }

  function ShowChips(buf: seq<Byte>): seq<seq<Event>>
    requires |buf| == 1536
  {
    seq(3, chip requires 0 <= chip < 3 => ShowChip(buf, chip))
  }

  /** `show()`: start line 0 and column 0 once, then the chips; the column
      address is not reset per chip. */
  function Show(buf: seq<Byte>): seq<Event>
    requires |buf| == 1536
  {
    [Command(AddrZ), Command(ColumnCommand(0))] + Flatten(ShowChips(buf)) + [Command(DisplayOn)]
  }

  // ---------------------------------------------------------------------------
  // show2(): one _write_data per byte

  function Show2Page(buf: seq<Byte>, chip: int, page: int): seq<Event>
    requires |buf| == 1536 && 0 <= chip < 3 && 0 <= page < 8
  {
    [Command(PageCommand(page)), Command(ColumnCommand(0))] + Flatten(Show2Writes(buf, chip, page))
  }

  function Show2Writes(buf: seq<Byte>, chip: int, page: int): seq<seq<Event>>
    requires |buf| == 1536 && 0 <= chip < 3 && 0 <= page < 8
  {
    seq(64, address requires 0 <= address < 64 => WriteData(buf[Pos(chip, page, address)]))
  }

  function Show2Pages(buf: seq<Byte>, chip: int): seq<seq<Event>>
    requires |buf| == 1536 && 0 <= chip < 3
  {
    seq(8, page requires 0 <= page < 8 => Show2Page(buf, chip, page))
  }

  function Show2Chip(buf: seq<Byte>, chip: int): seq<Event>
    requires |buf| == 1536 && 0 <= chip < 3
  {
    [Select(SelectChip(chip + 1))] + Flatten(Show2Pages(buf, chip))
  }

  function Show2Chips(buf: seq<Byte>): seq<seq<Event>>
    requires |buf| == 1536
  {
    seq(3, chip requires 0 <= chip < 3 => Show2Chip(buf, chip))
  }

  /** `show2()`: no start-line command; page then column 0 before every page. */
  function Show2(buf: seq<Byte>): seq<Event>
    requires |buf| == 1536
  {
    Flatten(Show2Chips(buf)) + [Command(DisplayOn)]
  }

  // ---------------------------------------------------------------------------
  // Data bytes

  /** A page of `show()` is the unrotated page of the current driver. */
  lemma ShowPageIsCurrent(buf: seq<Byte>, chip: int, page: int)
    requires |buf| == 1536 && 0 <= chip < 3 && 0 <= page < 8
    ensures ShowPage(buf, chip, page) == Transfer.PageBlock(buf, false, chip, page)
  {
  }

  /** The 64 `_write_data` calls of a `show2()` page latch the page's bytes. */
  lemma Show2WritesStrobes(buf: seq<Byte>, chip: int, page: int)
    requires |buf| == 1536 && 0 <= chip < 3 && 0 <= page < 8
    ensures |Strobed(Flatten(Show2Writes(buf, chip, page)))| == 64
    ensures forall a :: 0 <= a < 64 ==>
      Strobed(Flatten(Show2Writes(buf, chip, page)))[a] == buf[Pos(chip, page, a)]
  {
    var ws := Show2Writes(buf, chip, page);
    forall a | 0 <= a < 64
      ensures Project(ws[a], StrobeData) == [buf[Pos(chip, page, a)]]
    {
      WriteDataProjections(buf[Pos(chip, page, a)]);
    }
    ProjectFlattenSingles(ws, StrobeData);
  }

  /** A page of `show2()` strobes the same 64 bytes as a page of `show()`. */
  lemma Show2PageStrobes(buf: seq<Byte>, chip: int, page: int)
    requires |buf| == 1536 && 0 <= chip < 3 && 0 <= page < 8
    ensures Strobed(Show2Page(buf, chip, page)) == Strobed(ShowPage(buf, chip, page))
  {
    var hd := [Command(PageCommand(page)), Command(ColumnCommand(0))];
    var ws := Show2Writes(buf, chip, page);
    ProjectionsAppend(hd, Flatten(ws));
    ProjectionsOfPair(hd[0], hd[1]);
    Show2WritesStrobes(buf, chip, page);
    ShowPageIsCurrent(buf, chip, page);
    Transfer.PageBlockProjections(buf, false, chip, page);
  }

  /** The strobes of a chip of `show()` agree with those of the current
      driver's chip. */
  lemma ShowChipStrobes(buf: seq<Byte>, chip: int)
    requires |buf| == 1536 && 0 <= chip < 3
    ensures Strobed(ShowChip(buf, chip)) == Strobed(Transfer.ChipBlock(buf, false, chip))
  {
    var ps := ShowPages(buf, chip);
    var cur := Transfer.Pages(buf, false, chip);
    forall p | 0 <= p < 8
      ensures ps[p] == cur[p]
    {
      ShowPageIsCurrent(buf, chip, p);
    }
    assert ps == cur;
    var sel := [Select(SelectChip(chip + 1))];
    ProjectionsAppend(sel, Flatten(ps));
    ProjectionsOfOne(sel[0]);
    var hd := [Select(SelectChip(chip + 1)), Command(ColumnCommand(0))];
    ProjectionsAppend(hd, Flatten(cur));
    ProjectionsOfPair(hd[0], hd[1]);
  }

  /** The strobes of a chip of `show2()` agree with those of `show()`. */
  lemma Show2ChipStrobes(buf: seq<Byte>, chip: int)
    requires |buf| == 1536 && 0 <= chip < 3
    ensures Strobed(Show2Chip(buf, chip)) == Strobed(ShowChip(buf, chip))
  {
    var ps := ShowPages(buf, chip);
    var ps2 := Show2Pages(buf, chip);
    forall p | 0 <= p < 8
      ensures Project(ps2[p], StrobeData) == Project(ps[p], StrobeData)
    {
      Show2PageStrobes(buf, chip, p);
    }
    ProjectFlattenSame(ps2, ps, StrobeData);
    var sel := [Select(SelectChip(chip + 1))];
    ProjectionsAppend(sel, Flatten(ps));
    ProjectionsAppend(sel, Flatten(ps2));
    ProjectionsOfOne(sel[0]);
  }

  lemma ShowStrobesTop(buf: seq<Byte>)
    requires |buf| == 1536
    ensures Strobed(Show(buf)) == Project(Flatten(ShowChips(buf)), StrobeData)
  {
    var cs := ShowChips(buf);
    var first := [Command(AddrZ), Command(ColumnCommand(0))];
    var last := [Command(DisplayOn)];
    ProjectionsAppend(first + Flatten(cs), last);
    ProjectionsAppend(first, Flatten(cs));
    ProjectionsOfPair(first[0], first[1]);
    ProjectionsOfOne(last[0]);
  }

  lemma Show2StrobesTop(buf: seq<Byte>)
    requires |buf| == 1536
    ensures Strobed(Show2(buf)) == Project(Flatten(Show2Chips(buf)), StrobeData)
  {
    var last := [Command(DisplayOn)];
    ProjectionsAppend(Flatten(Show2Chips(buf)), last);
    ProjectionsOfOne(last[0]);
  }

  /** `show()` puts the same bytes on the bus in the same order as the
      current driver's unrotated `show()`. */
  lemma ShowMatchesCurrent(buf: seq<Byte>)
    requires |buf| == 1536
    ensures Strobed(Show(buf)) == Strobed(Transfer.Show(buf, false))
  {
    var cs := ShowChips(buf);
    var cur := Transfer.Chips(buf, false);
    forall c | 0 <= c < 3
      ensures Project(cs[c], StrobeData) == Project(cur[c], StrobeData)
    {
      ShowChipStrobes(buf, c);
    }
    ProjectFlattenSame(cs, cur, StrobeData);
    ShowStrobesTop(buf);
    var first := [Command(StartCommand(0))];
    var last := [Command(DisplayOn)];
    ProjectionsAppend(first + Flatten(cur), last);
    ProjectionsAppend(first, Flatten(cur));
    ProjectionsOfOne(first[0]);
    ProjectionsOfOne(last[0]);
  }

  /** `show2()` puts the same bytes on the bus in the same order as `show()`. */
  lemma Show2MatchesShow(buf: seq<Byte>)
    requires |buf| == 1536
    ensures Strobed(Show2(buf)) == Strobed(Show(buf))
  {
    var cs := ShowChips(buf);
    var cs2 := Show2Chips(buf);
    forall c | 0 <= c < 3
      ensures Project(cs2[c], StrobeData) == Project(cs[c], StrobeData)
    {
      Show2ChipStrobes(buf, c);
    }
    ProjectFlattenSame(cs2, cs, StrobeData);
    ShowStrobesTop(buf);
    Show2StrobesTop(buf);
  }

  /** `show()` and `show2()` send the same 1536 bytes: the `k`-th is the
      buffer byte at the `k`-th offset of the chip, page, address scan. */
  lemma ShowDataBytes(buf: seq<Byte>)
    requires |buf| == 1536
    ensures Strobed(Show2(buf)) == Strobed(Show(buf))
    ensures |Strobed(Show(buf))| == 1536
    ensures forall k :: 0 <= k < 1536 ==> Strobed(Show(buf))[k] == buf[Transfer.ScanOffset(k)]
  {
    ShowMatchesCurrent(buf);
    Show2MatchesShow(buf);
    Transfer.ShowTransmits(buf, false);
  }

  // ---------------------------------------------------------------------------
  // Control traffic

  lemma ShowChipControl(buf: seq<Byte>, chip: int)
    requires |buf| == 1536 && 0 <= chip < 3
    ensures |Commands(ShowChip(buf, chip))| == 8
    ensures forall p :: 0 <= p < 8 ==> Commands(ShowChip(buf, chip))[p] == PageCommand(p)
    ensures Selections(ShowChip(buf, chip)) == [SelectChip(chip + 1)]
    ensures ModeSets(ShowChip(buf, chip)) == 8
  {
    var ps := ShowPages(buf, chip);
    var sel := [Select(SelectChip(chip + 1))];
    ProjectionsAppend(sel, Flatten(ps));
    ProjectionsOfOne(sel[0]);
    var cmds := ProjectEach(ps, CommandCode);
    var sels := ProjectEach(ps, SelectLines);
    forall p | 0 <= p < 8
      ensures cmds[p] == [PageCommand(p)]
      ensures sels[p] == []
      ensures |Project(ps[p], ModeSet)| == 1
    {
      ShowPageIsCurrent(buf, chip, p);
      Transfer.PageBlockProjections(buf, false, chip, p);
    }
    ProjectFlatten(ps, CommandCode);
    FlattenSingletons(cmds);
    ProjectFlatten(ps, SelectLines);
    FlattenLength(sels, 0);
    ProjectFlattenCount(ps, ModeSet, 1);
  }

  /** The control traffic of `show()`: start line 0 and column 0 once, then
      for each chip its select followed by the eight page commands, display
      on last; data-write mode is entered once per page. */
  lemma ShowControl(buf: seq<Byte>)
    requires |buf| == 1536
    ensures |Commands(Show(buf))| == 27
    ensures Commands(Show(buf))[0] == 0xC0 && Commands(Show(buf))[1] == 0x40
    ensures Commands(Show(buf))[26] == 0x3F
    ensures forall i :: 0 <= i < 24 ==> Commands(Show(buf))[i + 2] == 0xB8 + i % 8
    ensures Selections(Show(buf)) == [SelectChip(1), SelectChip(2), SelectChip(3)]
    ensures ModeSets(Show(buf)) == 24
  {
    var cs := ShowChips(buf);
    ShowChipsCommands(buf);
    ShowChipsSelectionsAndModes(buf);
    var first := [Command(AddrZ), Command(ColumnCommand(0))];
    var last := [Command(DisplayOn)];
    ProjectionsAppend(first + Flatten(cs), last);
    ProjectionsAppend(first, Flatten(cs));
    ProjectionsOfPair(first[0], first[1]);
    ProjectionsOfOne(last[0]);
  }

  /** The page commands of the three chips, in loop order. */
  lemma ShowChipsCommands(buf: seq<Byte>)
    requires |buf| == 1536
    ensures |Commands(Flatten(ShowChips(buf)))| == 24
    ensures forall i :: 0 <= i < 24 ==> Commands(Flatten(ShowChips(buf)))[i] == 0xB8 + i % 8
  {
    var cs := ShowChips(buf);
    var cmds := ProjectEach(cs, CommandCode);
    forall c | 0 <= c < 3
      ensures |cmds[c]| == 8
      ensures forall p :: 0 <= p < 8 ==> cmds[c][p] == 0xB8 + p
    {
      ShowChipControl(buf, c);
    }
    ProjectFlatten(cs, CommandCode);
    FlattenLength(cmds, 8);
    forall i | 0 <= i < 24
      ensures Flatten(cmds)[i] == 0xB8 + i % 8
    {
      FlattenIndex(cmds, 8, i / 8, i % 8);
    }
  }

  /** The three chips are selected in turn, each page entering data mode once. */
  lemma ShowChipsSelectionsAndModes(buf: seq<Byte>)
    requires |buf| == 1536
    ensures Selections(Flatten(ShowChips(buf))) == [SelectChip(1), SelectChip(2), SelectChip(3)]
    ensures ModeSets(Flatten(ShowChips(buf))) == 24
  {
    var cs := ShowChips(buf);
    var sels := ProjectEach(cs, SelectLines);
    forall c | 0 <= c < 3
      ensures sels[c] == [SelectChip(c + 1)]
      ensures |Project(cs[c], ModeSet)| == 8
    {
      ShowChipControl(buf, c);
    }
    ProjectFlatten(cs, SelectLines);
    FlattenSingletons(sels);
    ProjectFlattenCount(cs, ModeSet, 8);
  }

  /** A page of `show2()`: page command, column 0, and one data-write mode
      per byte. */
  lemma Show2PageControl(buf: seq<Byte>, chip: int, page: int)
    requires |buf| == 1536 && 0 <= chip < 3 && 0 <= page < 8
    ensures Commands(Show2Page(buf, chip, page)) == [PageCommand(page), ColumnCommand(0)]
    ensures Selections(Show2Page(buf, chip, page)) == []
    ensures ModeSets(Show2Page(buf, chip, page)) == 64
  {
    var hd := [Command(PageCommand(page)), Command(ColumnCommand(0))];
    var ws := Show2Writes(buf, chip, page);
    ProjectionsAppend(hd, Flatten(ws));
    ProjectionsOfPair(hd[0], hd[1]);
    forall a | 0 <= a < 64
      ensures Project(ws[a], CommandCode) == [] && Project(ws[a], SelectLines) == []
      ensures |Project(ws[a], ModeSet)| == 1
    {
      WriteDataProjections(buf[Pos(chip, page, a)]);
    }
    ProjectFlattenEmpty(ws, CommandCode);
    ProjectFlattenEmpty(ws, SelectLines);
    ProjectFlattenCount(ws, ModeSet, 1);
  }

  /** Command `i` of `show2()`: page commands on even positions, cycling
      through pages 0..7 once per chip, column 0 on odd positions. */
  function Show2Code(i: int): int
  {
    if i % 2 == 0 then PageCommand((i % 16) / 2) else ColumnCommand(0)
  }

  lemma Show2ChipCommands(buf: seq<Byte>, chip: int)
    requires |buf| == 1536 && 0 <= chip < 3
    ensures |Commands(Show2Chip(buf, chip))| == 16
    ensures forall i :: 0 <= i < 16 ==> Commands(Show2Chip(buf, chip))[i] == Show2Code(i)
  {
    var ps := Show2Pages(buf, chip);
    var sel := [Select(SelectChip(chip + 1))];
    ProjectionsAppend(sel, Flatten(ps));
    ProjectionsOfOne(sel[0]);
    forall p | 0 <= p < 8
      ensures Project(ps[p], CommandCode) == [0xB8 + p, 0x40]
    {
      Show2PageControl(buf, chip, p);
    }
    ProjectFlattenCount(ps, CommandCode, 2);
    forall i | 0 <= i < 16
      ensures Project(Flatten(ps), CommandCode)[i] == Show2Code(i)
    {
      ProjectFlattenAt(ps, CommandCode, 2, i / 2, i % 2);
    }
  }

  lemma Show2ChipLines(buf: seq<Byte>, chip: int)
    requires |buf| == 1536 && 0 <= chip < 3
    ensures Selections(Show2Chip(buf, chip)) == [SelectChip(chip + 1)]
    ensures ModeSets(Show2Chip(buf, chip)) == 512
  {
    var ps := Show2Pages(buf, chip);
    var sel := [Select(SelectChip(chip + 1))];
    ProjectionsAppend(sel, Flatten(ps));
    ProjectionsOfOne(sel[0]);
    forall p | 0 <= p < 8
      ensures Project(ps[p], SelectLines) == []
      ensures |Project(ps[p], ModeSet)| == 64
    {
      Show2PageControl(buf, chip, p);
    }
    ProjectFlattenEmpty(ps, SelectLines);
    ProjectFlattenCount(ps, ModeSet, 64);
  }

  lemma ModSixteen(i: int)
    requires 0 <= i < 48
    ensures Show2Code(i % 16) == Show2Code(i)
  {
    assert i == 16 * (i / 16) + i % 16;
    assert 16 * (i / 16) == 2 * (8 * (i / 16));
  }

  lemma Show2ChipsCommands(buf: seq<Byte>)
    requires |buf| == 1536
    ensures |Project(Flatten(Show2Chips(buf)), CommandCode)| == 48
    ensures forall i :: 0 <= i < 48 ==> Project(Flatten(Show2Chips(buf)), CommandCode)[i] == Show2Code(i)
  {
    var cs := Show2Chips(buf);
    forall c | 0 <= c < 3
      ensures |Project(cs[c], CommandCode)| == 16
      ensures forall i :: 0 <= i < 16 ==> Project(cs[c], CommandCode)[i] == Show2Code(i)
    {
      Show2ChipCommands(buf, c);
    }
    ProjectFlattenPeriodic(cs, CommandCode, 16, Show2Code);
    forall i | 0 <= i < 48
      ensures Project(Flatten(cs), CommandCode)[i] == Show2Code(i)
    {
      ModSixteen(i);
    }
  }

  lemma Show2ChipsLines(buf: seq<Byte>)
    requires |buf| == 1536
    ensures Project(Flatten(Show2Chips(buf)), SelectLines) == [SelectChip(1), SelectChip(2), SelectChip(3)]
  {
    var cs := Show2Chips(buf);
    forall c | 0 <= c < 3
      ensures Project(cs[c], SelectLines) == [SelectChip(c + 1)]
    {
      Show2ChipLines(buf, c);
    }
    ProjectFlattenSingles(cs, SelectLines);
  }

  lemma Show2ChipsModes(buf: seq<Byte>)
    requires |buf| == 1536
    ensures |Project(Flatten(Show2Chips(buf)), ModeSet)| == 1536
  {
    var cs := Show2Chips(buf);
    forall c | 0 <= c < 3
      ensures |Project(cs[c], ModeSet)| == 512
    {
      Show2ChipLines(buf, c);
    }
    ProjectFlattenCount(cs, ModeSet, 512);
  }

  /** The control traffic of `show2()`: for each chip its select, then per
      page the page command and column 0; display on last; no start-line
      command; data-write mode is entered once per byte, 1536 times. */
  lemma Show2Control(buf: seq<Byte>)
    requires |buf| == 1536
    ensures |Commands(Show2(buf))| == 49
    ensures forall i :: 0 <= i < 48 ==> Commands(Show2(buf))[i] == Show2Code(i)
    ensures Commands(Show2(buf))[48] == 0x3F
    ensures Selections(Show2(buf)) == [SelectChip(1), SelectChip(2), SelectChip(3)]
    ensures ModeSets(Show2(buf)) == 1536
  {
    var body := Flatten(Show2Chips(buf));
    Show2ChipsCommands(buf);
    Show2ChipsLines(buf);
    Show2ChipsModes(buf);
    AppendCommand(body, DisplayOn);
  }

  // ---------------------------------------------------------------------------
  // clear()

  /** The eight `_write_data(v)` of one pass of the outer loop. */
  function ClearRow(v: Byte): seq<seq<Event>>
  {
    seq(8, _ => WriteData(v))
  }

  /** The 64 passes for one chip. */
  function ClearRows(v: Byte): seq<seq<Event>>
  {
    seq(64, _ => Flatten(ClearRow(v)))
  }

  /** One pass of `for chip in range(1, 4)`, writing `v` everywhere. */
  function ClearChip(chip: int, v: Byte): seq<Event>
  {
    [Select(SelectChip(chip)), Command(AddrZ)] + Flatten(ClearRows(v))
  }

  function ClearChips(v: Byte): seq<seq<Event>>
  {
    seq(3, i requires 0 <= i < 3 => ClearChip(i + 1, v))
  }

  /** The bus traffic of `clear()` with every data byte written as `v`. */
  function ClearTrace(v: Byte): seq<Event>
  {
    Flatten(ClearChips(v)) + [Select(SelectChip(1))]
  }

  /** `clear()`: blank the buffer; for chips 1, 2, 3 select the chip, set
      start line 0 and write 64 * 8 `LCD_EMPTY` bytes; finally select chip 1. */
  function Clear(): (seq<Byte>, seq<Event>)
  {
    (Transfer.Blank(), ClearTrace(Empty))
  }

  lemma ClearRowStrobes(v: Byte)
    ensures |Strobed(Flatten(ClearRow(v)))| == 8
    ensures forall j :: 0 <= j < 8 ==> Strobed(Flatten(ClearRow(v)))[j] == v
  {
    var row := ClearRow(v);
    forall j | 0 <= j < 8
      ensures Project(row[j], StrobeData) == [v]
    {
      WriteDataProjections(v);
    }
    ProjectFlattenSingles(row, StrobeData);
  }

  lemma ClearRowControl(v: Byte)
    ensures ModeSets(Flatten(ClearRow(v))) == 8
    ensures Commands(Flatten(ClearRow(v))) == [] && Selections(Flatten(ClearRow(v))) == []
  {
    var row := ClearRow(v);
    forall j | 0 <= j < 8
      ensures Project(row[j], CommandCode) == [] && Project(row[j], SelectLines) == []
      ensures |Project(row[j], ModeSet)| == 1
    {
      WriteDataProjections(v);
    }
    ProjectFlattenCount(row, ModeSet, 1);
    ProjectFlattenEmpty(row, CommandCode);
    ProjectFlattenEmpty(row, SelectLines);
  }

  lemma ClearRowsStrobes(v: Byte)
    ensures |Strobed(Flatten(ClearRows(v)))| == 512
    ensures forall k :: 0 <= k < 512 ==> Strobed(Flatten(ClearRows(v)))[k] == v
  {
    var rows := ClearRows(v);
    ClearRowStrobes(v);
    ProjectFlattenCount(rows, StrobeData, 8);
    forall k | 0 <= k < 512
      ensures Project(Flatten(rows), StrobeData)[k] == v
    {
      ProjectFlattenAt(rows, StrobeData, 8, k / 8, k % 8);
    }
  }

  lemma ClearRowsControl(v: Byte)
    ensures ModeSets(Flatten(ClearRows(v))) == 512
    ensures Commands(Flatten(ClearRows(v))) == [] && Selections(Flatten(ClearRows(v))) == []
  {
    var rows := ClearRows(v);
    ClearRowControl(v);
    ProjectFlattenCount(rows, ModeSet, 8);
    ProjectFlattenEmpty(rows, CommandCode);
    ProjectFlattenEmpty(rows, SelectLines);
  }

  lemma ClearChipTraffic(chip: int, v: Byte)
    ensures |Strobed(ClearChip(chip, v))| == 512
    ensures forall k :: 0 <= k < 512 ==> Strobed(ClearChip(chip, v))[k] == v
    ensures ModeSets(ClearChip(chip, v)) == 512
    ensures Commands(ClearChip(chip, v)) == [AddrZ]
    ensures Selections(ClearChip(chip, v)) == [SelectChip(chip)]
  {
    ClearRowsStrobes(v);
    ClearRowsControl(v);
    var hd := [Select(SelectChip(chip)), Command(AddrZ)];
    ProjectionsAppend(hd, Flatten(ClearRows(v)));
    ProjectionsOfPair(hd[0], hd[1]);
  }

  lemma ClearChipsStrobes(v: Byte)
    ensures |Strobed(Flatten(ClearChips(v)))| == 1536
    ensures forall k :: 0 <= k < 1536 ==> Strobed(Flatten(ClearChips(v)))[k] == v
  {
    var cs := ClearChips(v);
    forall c | 0 <= c < 3
      ensures |Project(cs[c], StrobeData)| == 512
      ensures forall k :: 0 <= k < 512 ==> Project(cs[c], StrobeData)[k] == v
    {
      ClearChipTraffic(c + 1, v);
    }
    ProjectFlattenCount(cs, StrobeData, 512);
    forall k | 0 <= k < 1536
      ensures Project(Flatten(cs), StrobeData)[k] == v
    {
      ProjectFlattenAt(cs, StrobeData, 512, k / 512, k % 512);
    }
  }

  lemma ClearChipsControl(v: Byte)
    ensures ModeSets(Flatten(ClearChips(v))) == 1536
    ensures Commands(Flatten(ClearChips(v))) == [0xC0, 0xC0, 0xC0]
    ensures Selections(Flatten(ClearChips(v))) == [SelectChip(1), SelectChip(2), SelectChip(3)]
  {
    var cs := ClearChips(v);
    forall c | 0 <= c < 3
      ensures Project(cs[c], CommandCode) == [AddrZ]
      ensures Project(cs[c], SelectLines) == [SelectChip(c + 1)]
      ensures |Project(cs[c], ModeSet)| == 512
    {
      ClearChipTraffic(c + 1, v);
    }
    ProjectFlattenCount(cs, ModeSet, 512);
    ProjectFlattenSingles(cs, CommandCode);
    ProjectFlattenSingles(cs, SelectLines);
  }

  /** `clear()` blanks the buffer and writes 1536 zero bytes, each with its
      own data-write mode; it sends three start-line commands (one per chip),
      selects chips 1, 2, 3 in turn and leaves chip 1 selected. */
  lemma ClearTraffic()
    ensures |Clear().0| == 1536
    ensures forall i :: 0 <= i < 1536 ==> Clear().0[i] == 0
    ensures |Strobed(Clear().1)| == 1536
    ensures forall k :: 0 <= k < 1536 ==> Strobed(Clear().1)[k] == 0
    ensures ModeSets(Clear().1) == 1536
    ensures Commands(Clear().1) == [0xC0, 0xC0, 0xC0]
    ensures Selections(Clear().1) == [SelectChip(1), SelectChip(2), SelectChip(3), SelectChip(1)]
    ensures Clear().1[|Clear().1| - 1] == Select(SelectChip(1))
  {
    ClearTraceTraffic(Empty);
    ClearEnds(Empty);
  }

  lemma ClearTraceTraffic(v: Byte)
    ensures |Strobed(ClearTrace(v))| == 1536
    ensures forall k :: 0 <= k < 1536 ==> Strobed(ClearTrace(v))[k] == v
    ensures ModeSets(ClearTrace(v)) == 1536
    ensures Commands(ClearTrace(v)) == [0xC0, 0xC0, 0xC0]
    ensures Selections(ClearTrace(v)) == [SelectChip(1), SelectChip(2), SelectChip(3), SelectChip(1)]
  {
    ClearChipsStrobes(v);
    ClearChipsControl(v);
    var last := [Select(SelectChip(1))];
    ProjectionsAppend(Flatten(ClearChips(v)), last);
    ProjectionsOfOne(last[0]);
  }

  // ---------------------------------------------------------------------------
  // Event positions

  /** Event `2j + b` of one chip's 64 * 8 writes is event `b` of its `j`-th
      `_write_data(v)`. */
  lemma ClearRowsAt(v: Byte, j: int, b: int)
    requires 0 <= j < 512 && 0 <= b < 2
    ensures |Flatten(ClearRows(v))| == 1024
    ensures Flatten(ClearRows(v))[2 * j + b] == WriteData(v)[b]
  {
    var row := ClearRow(v);
    var rows := ClearRows(v);
    var r, i := j / 8, j % 8;
    FlattenLength(row, 2);
    FlattenIndex(row, 2, i, b);
    FlattenLength(rows, 16);
    FlattenIndex(rows, 16, r, 2 * i + b);
    assert 2 * j + b == r * 16 + (2 * i + b);
  }

  lemma ClearChipShape(chip: int, v: Byte, j: int)
    requires 0 <= j < 512
    ensures |ClearChip(chip, v)| == 1026
    ensures ClearChip(chip, v)[0] == Select(SelectChip(chip))
    ensures ClearChip(chip, v)[1] == Command(0xC0)
    ensures ClearChip(chip, v)[2 + 2 * j] == DataMode
    ensures ClearChip(chip, v)[3 + 2 * j] == Strobe(v)
  {
    ClearRowsAt(v, j, 0);
    ClearRowsAt(v, j, 1);
  }

  lemma ClearChipsShape(v: Byte)
    ensures |ClearChips(v)| == 3
    ensures forall c :: 0 <= c < 3 ==> |ClearChips(v)[c]| == 1026
    ensures |Flatten(ClearChips(v))| == 3078
  {
    var cs := ClearChips(v);
    forall c | 0 <= c < 3
      ensures |cs[c]| == 1026
    {
      ClearChipShape(c + 1, v, 0);
    }
    FlattenLength(cs, 1026);
  }

  /** The three chip passes take 3078 events; the final chip-1 select ends
      the trace. */
  lemma ClearEnds(v: Byte)
    ensures |ClearTrace(v)| == 3079
    ensures ClearTrace(v)[3078] == Select(SelectChip(1))
  {
    ClearChipsShape(v);
  }

  /** Event `j` of the pass for chip `c + 1` sits at `i == 1026c + j`. */
  lemma ClearAt(v: Byte, c: int, j: int, i: int)
    requires 0 <= c < 3 && 0 <= j < 1026
    requires i == c * 1026 + j
    ensures |ClearTrace(v)| == 3079
    ensures |ClearChip(c + 1, v)| == 1026
    ensures ClearTrace(v)[i] == ClearChip(c + 1, v)[j]
  {
    var cs := ClearChips(v);
    ClearChipsShape(v);
    FlattenIndex(cs, 1026, c, j);
    assert i < |Flatten(cs)|;
    assert ClearTrace(v)[i] == Flatten(cs)[c * 1026 + j];
  }

  lemma ClearHeads(v: Byte, c: int, m: int, n: int)
    requires 0 <= c < 3
    requires m == c * 1026 && n == m + 1
    ensures |ClearTrace(v)| == 3079
    ensures ClearTrace(v)[m] == Select(SelectChip(c + 1))
    ensures ClearTrace(v)[n] == Command(0xC0)
  {
    var j0, j1 := 0, 1;
    ClearChipShape(c + 1, v, 0);
    ClearAt(v, c, j0, m);
    ClearAt(v, c, j1, n);
  }

  lemma ClearWrites(v: Byte, c: int, j: int, m: int, n: int)
    requires 0 <= c < 3 && 0 <= j < 512
    requires m == c * 1026 + 2 + 2 * j && n == m + 1
    ensures |ClearTrace(v)| == 3079
    ensures ClearTrace(v)[m] == DataMode
    ensures ClearTrace(v)[n] == Strobe(v)
  {
    var j0, j1 := 2 + 2 * j, 3 + 2 * j;
    ClearChipShape(c + 1, v, j);
    ClearAt(v, c, j0, m);
    ClearAt(v, c, j1, n);
  }

  /** Where the control events of `clear()` sit: 3079 events. The pass for
      chip `c + 1` starts at 1026c with its chip select and start line 0;
      the last event selects chip 1 again. */
  lemma ClearLayout(c: int)
    requires 0 <= c < 3
    ensures |Clear().1| == 3079
    ensures Clear().1[c * 1026] == Select(SelectChip(c + 1))
    ensures Clear().1[c * 1026 + 1] == Command(0xC0)
    ensures Clear().1[3078] == Select(SelectChip(1))
  {
    ClearEnds(Empty);
    var m := c * 1026;
    var n := c * 1026 + 1;
    ClearHeads(Empty, c, m, n);
  }

  /** After those two commands, each pass makes 512 zero writes: write `j`
      is data-write mode at 1026c + 2 + 2j, then a strobe of 0. With
      `ClearLayout` these positions cover the whole trace
      (3 * (2 + 512 * 2) + 1 == 3079). */
  lemma ClearWriteLayout(c: int, j: int)
    requires 0 <= c < 3 && 0 <= j < 512
    ensures |Clear().1| == 3079
    ensures Clear().1[c * 1026 + 2 + 2 * j] == DataMode
    ensures Clear().1[c * 1026 + 3 + 2 * j] == Strobe(0)
  {
    var m := c * 1026 + 2 + 2 * j;
    var n := c * 1026 + 3 + 2 * j;
    ClearWrites(Empty, c, j, m, n);
  }

  lemma ShowPageShape(buf: seq<Byte>, chip: int, page: int)
    requires |buf| == 1536 && 0 <= chip < 3 && 0 <= page < 8
    ensures |ShowPage(buf, chip, page)| == 66
    ensures ShowPage(buf, chip, page)[0] == Command(PageCommand(page))
    ensures ShowPage(buf, chip, page)[1] == DataMode
    ensures forall a :: 0 <= a < 64 ==> ShowPage(buf, chip, page)[2 + a] == Strobe(buf[Pos(chip, page, a)])
  {
  }

  /** Event `j` of page `page` sits at `1 + 66 page + j` of its chip's events. */
  lemma ShowChipAt(buf: seq<Byte>, chip: int, page: int, j: int)
    requires |buf| == 1536 && 0 <= chip < 3 && 0 <= page < 8 && 0 <= j < 66
    ensures |ShowChip(buf, chip)| == 529
    ensures |ShowPage(buf, chip, page)| == 66
    ensures ShowChip(buf, chip)[1 + page * 66 + j] == ShowPage(buf, chip, page)[j]
  {
    var ps := ShowPages(buf, chip);
    forall p | 0 <= p < 8
      ensures |ps[p]| == 66
    {
      ShowPageShape(buf, chip, p);
    }
    FlattenLength(ps, 66);
    FlattenIndex(ps, 66, page, j);
  }

  /** Event `j` of chip block `chip` sits at `2 + 529 chip + j` of `show()`. */
  lemma ShowChipsAt(buf: seq<Byte>, chip: int, j: int)
    requires |buf| == 1536 && 0 <= chip < 3 && 0 <= j < 529
    ensures |Show(buf)| == 1590
    ensures |ShowChip(buf, chip)| == 529
    ensures Show(buf)[2 + chip * 529 + j] == ShowChip(buf, chip)[j]
  {
    var cs := ShowChips(buf);
    forall c | 0 <= c < 3
      ensures |cs[c]| == 529
    {
      ShowChipAt(buf, c, 0, 0);
    }
    FlattenLength(cs, 529);
    FlattenIndex(cs, 529, chip, j);
    assert Show(buf) == [Command(AddrZ), Command(ColumnCommand(0))] + Flatten(cs) + [Command(DisplayOn)];
  }

  lemma ShowEnds(buf: seq<Byte>)
    requires |buf| == 1536
    ensures |Show(buf)| == 1590
    ensures Show(buf)[0] == Command(0xC0) && Show(buf)[1] == Command(0x40)
    ensures Show(buf)[1589] == Command(0x3F)
  {
    ShowChipsAt(buf, 0, 0);
    assert Show(buf) == [Command(AddrZ), Command(ColumnCommand(0))] + Flatten(ShowChips(buf)) + [Command(DisplayOn)];
  }

  lemma ShowPageHeads(buf: seq<Byte>, chip: int, page: int)
    requires |buf| == 1536 && 0 <= chip < 3 && 0 <= page < 8
    ensures |Show(buf)| == 1590
    ensures Show(buf)[2 + chip * 529] == Select(SelectChip(chip + 1))
    ensures Show(buf)[3 + chip * 529 + page * 66] == Command(0xB8 + page)
    ensures Show(buf)[4 + chip * 529 + page * 66] == DataMode
  {
    ShowPageShape(buf, chip, page);
    ShowChipAt(buf, chip, page, 0);
    ShowChipAt(buf, chip, page, 1);
    ShowChipsAt(buf, chip, 0);
    ShowChipsAt(buf, chip, 1 + page * 66);
    ShowChipsAt(buf, chip, 2 + page * 66);
  }

  lemma ShowStrobeEvent(buf: seq<Byte>, chip: int, page: int, a: int)
    requires |buf| == 1536 && 0 <= chip < 3 && 0 <= page < 8 && 0 <= a < 64
    ensures |Show(buf)| == 1590
    ensures Show(buf)[5 + chip * 529 + page * 66 + a] == Strobe(buf[Pos(chip, page, a)])
  {
    ShowPageShape(buf, chip, page);
    ShowChipAt(buf, chip, page, 2 + a);
    ShowChipsAt(buf, chip, 3 + page * 66 + a);
  }

  /** Where each event of `show()` sits: 1590 events, start line 0 and
      column 0 first and display-on last. Chip `chip` (selected as
      chip + 1) starts at 2 + 529 chip with its chip select only, since the
      column is not reset per chip; its page `page` starts 1 + 66 page later
      with the page command and data-write mode, followed by the 64 strobes
      of `buffer[address + page * 192 + chip * 64]`. These positions cover
      the whole trace (3 + 3 * (1 + 8 * 66) == 1590). */
  lemma ShowLayout(buf: seq<Byte>, chip: int, page: int, a: int)
    requires |buf| == 1536 && 0 <= chip < 3 && 0 <= page < 8 && 0 <= a < 64
    ensures |Show(buf)| == 1590
    ensures Show(buf)[0] == Command(0xC0) && Show(buf)[1] == Command(0x40)
    ensures Show(buf)[1589] == Command(0x3F)
    ensures Show(buf)[2 + chip * 529] == Select(SelectChip(chip + 1))
    ensures Show(buf)[3 + chip * 529 + page * 66] == Command(0xB8 + page)
    ensures Show(buf)[4 + chip * 529 + page * 66] == DataMode
    ensures Show(buf)[5 + chip * 529 + page * 66 + a] == Strobe(buf[Pos(chip, page, a)])
  {
    ShowEnds(buf);
    ShowPageHeads(buf, chip, page);
    ShowStrobeEvent(buf, chip, page, a);
  }

  lemma Show2PageFront(buf: seq<Byte>, chip: int, page: int)
    requires |buf| == 1536 && 0 <= chip < 3 && 0 <= page < 8
    ensures |Show2Page(buf, chip, page)| == 130
    ensures Show2Page(buf, chip, page)[0] == Command(0xB8 + page)
    ensures Show2Page(buf, chip, page)[1] == Command(0x40)
  {
    FlattenLength(Show2Writes(buf, chip, page), 2);
  }

  /** The `_write_data` for address `a` fills events `m == 2 + 2a` and
      `m + 1` of its page. */
  lemma Show2PageWrite(buf: seq<Byte>, chip: int, page: int, a: int, m: int)
    requires |buf| == 1536 && 0 <= chip < 3 && 0 <= page < 8 && 0 <= a < 64
    requires m == 2 + 2 * a
    ensures |Show2Page(buf, chip, page)| == 130
    ensures Show2Page(buf, chip, page)[m] == DataMode
    ensures Show2Page(buf, chip, page)[m + 1] == Strobe(buf[Pos(chip, page, a)])
  {
    var ws := Show2Writes(buf, chip, page);
    FlattenLength(ws, 2);
    FlattenIndex(ws, 2, a, 0);
    FlattenIndex(ws, 2, a, 1);
  }

  /** Event `j` of page `page` sits at `k == 1 + 130 page + j` of its chip's
      events. */
  lemma Show2ChipAt(buf: seq<Byte>, chip: int, page: int, j: int, k: int)
    requires |buf| == 1536 && 0 <= chip < 3 && 0 <= page < 8 && 0 <= j < 130
    requires k == 1 + page * 130 + j
    ensures |Show2Chip(buf, chip)| == 1041
    ensures |Show2Page(buf, chip, page)| == 130
    ensures Show2Chip(buf, chip)[k] == Show2Page(buf, chip, page)[j]
  {
    var ps := Show2Pages(buf, chip);
    forall p | 0 <= p < 8
      ensures |ps[p]| == 130
    {
      Show2PageFront(buf, chip, p);
    }
    FlattenLength(ps, 130);
    FlattenIndex(ps, 130, page, j);
    assert Show2Chip(buf, chip)[k] == Flatten(ps)[page * 130 + j];
  }

  lemma Show2ChipsShape(buf: seq<Byte>)
    requires |buf| == 1536
    ensures |Show2Chips(buf)| == 3
    ensures forall c :: 0 <= c < 3 ==> |Show2Chips(buf)[c]| == 1041
    ensures |Flatten(Show2Chips(buf))| == 3123
  {
    var cs := Show2Chips(buf);
    forall c | 0 <= c < 3
      ensures |cs[c]| == 1041
    {
      Show2ChipAt(buf, c, 0, 0, 1);
    }
    FlattenLength(cs, 1041);
  }

  /** `show2()` is its 3123 chip-block events, then display on. */
  lemma Show2Ends(buf: seq<Byte>)
    requires |buf| == 1536
    ensures |Show2(buf)| == 3124
    ensures Show2(buf)[3123] == Command(0x3F)
  {
    Show2ChipsShape(buf);
  }

  /** Event `j` of chip block `chip` sits at `i == 1041 chip + j` of
      `show2()`. */
  lemma Show2At(buf: seq<Byte>, chip: int, j: int, i: int)
    requires |buf| == 1536 && 0 <= chip < 3 && 0 <= j < 1041
    requires i == chip * 1041 + j
    ensures |Show2(buf)| == 3124
    ensures |Show2Chip(buf, chip)| == 1041
    ensures Show2(buf)[i] == Show2Chip(buf, chip)[j]
  {
    var cs := Show2Chips(buf);
    Show2ChipsShape(buf);
    FlattenIndex(cs, 1041, chip, j);
    assert i < |Flatten(cs)|;
    assert Show2(buf)[i] == Flatten(cs)[chip * 1041 + j];
  }

  lemma Show2ChipHead(buf: seq<Byte>, chip: int, c: int)
    requires |buf| == 1536 && 0 <= chip < 3
    requires c == chip * 1041
    ensures |Show2(buf)| == 3124
    ensures Show2(buf)[c] == Select(SelectChip(chip + 1))
  {
    Show2At(buf, chip, 0, c);
  }

  lemma Show2PageHeads(buf: seq<Byte>, chip: int, page: int, m: int, n: int)
    requires |buf| == 1536 && 0 <= chip < 3 && 0 <= page < 8
    requires m == 1 + chip * 1041 + page * 130 && n == m + 1
    ensures |Show2(buf)| == 3124
    ensures Show2(buf)[m] == Command(0xB8 + page)
    ensures Show2(buf)[n] == Command(0x40)
  {
    var j0, j1 := 0, 1;
    var k0, k1 := 1 + page * 130 + j0, 1 + page * 130 + j1;
    Show2PageFront(buf, chip, page);
    Show2ChipAt(buf, chip, page, j0, k0);
    Show2ChipAt(buf, chip, page, j1, k1);
    Show2At(buf, chip, k0, m);
    Show2At(buf, chip, k1, n);
  }

  lemma Show2WriteEvents(buf: seq<Byte>, chip: int, page: int, a: int, m: int, n: int)
    requires |buf| == 1536 && 0 <= chip < 3 && 0 <= page < 8 && 0 <= a < 64
    requires m == 3 + chip * 1041 + page * 130 + 2 * a && n == m + 1
    ensures |Show2(buf)| == 3124
    ensures Show2(buf)[m] == DataMode
    ensures Show2(buf)[n] == Strobe(buf[Pos(chip, page, a)])
  {
    var j0 := 2 + 2 * a;
    var j1 := j0 + 1;
    var k0, k1 := 1 + page * 130 + j0, 1 + page * 130 + j1;
    Show2PageWrite(buf, chip, page, a, j0);
    Show2ChipAt(buf, chip, page, j0, k0);
    Show2ChipAt(buf, chip, page, j1, k1);
    Show2At(buf, chip, k0, m);
    Show2At(buf, chip, k1, n);
  }

  /** Where the control events of `show2()` sit: 3124 events, display-on
      last. Chip `chip` (selected as chip + 1) starts at 1041 chip with its
      chip select; its page `page` starts 1 + 130 page later with the page
      command and column 0. */
  lemma Show2Layout(buf: seq<Byte>, chip: int, page: int)
    requires |buf| == 1536 && 0 <= chip < 3 && 0 <= page < 8
    ensures |Show2(buf)| == 3124
    ensures Show2(buf)[3123] == Command(0x3F)
    ensures Show2(buf)[chip * 1041] == Select(SelectChip(chip + 1))
    ensures Show2(buf)[1 + chip * 1041 + page * 130] == Command(0xB8 + page)
    ensures Show2(buf)[2 + chip * 1041 + page * 130] == Command(0x40)
  {
    Show2Ends(buf);
    var c := chip * 1041;
    Show2ChipHead(buf, chip, c);
    var m := 1 + chip * 1041 + page * 130;
    var n := 2 + chip * 1041 + page * 130;
    Show2PageHeads(buf, chip, page, m, n);
  }

  /** After the page and column commands of page `page` of chip `chip`, each
      address `a` is one `_write_data`: data-write mode at
      3 + 1041 chip + 130 page + 2 a, then the strobe of
      `buffer[a + page * 192 + chip * 64]`. With `Show2Layout` these
      positions cover the whole trace (3 * (1 + 8 * (2 + 64 * 2)) + 1
      == 3124). */
  lemma Show2WriteLayout(buf: seq<Byte>, chip: int, page: int, a: int)
    requires |buf| == 1536 && 0 <= chip < 3 && 0 <= page < 8 && 0 <= a < 64
    ensures |Show2(buf)| == 3124
    ensures Show2(buf)[3 + chip * 1041 + page * 130 + 2 * a] == DataMode
    ensures Show2(buf)[4 + chip * 1041 + page * 130 + 2 * a] == Strobe(buf[Pos(chip, page, a)])
  {
    var m := 3 + chip * 1041 + page * 130 + 2 * a;
    var n := 4 + chip * 1041 + page * 130 + 2 * a;
    Show2WriteEvents(buf, chip, page, a, m, n);
  }

  // ---------------------------------------------------------------------------
  // _init()

  /** `_init`: pulse reset, drive all three chip-select lines low directly,
      then display on before start line 0. The buffer is not touched. */
  function Init(): seq<Event>
  {
    [ResetLow, ResetHigh, Select(ChipLines(Low, Low, Low)), Command(DisplayOn), Command(AddrZ)]
  }

  /** This `_init` drives the same lines as the current driver's (its direct
      pin writes equal `_select_chip(0)`) but sends the two commands in the
      opposite order. */
  lemma InitAgainstCurrent(d: Lcd19264.Lcd)
    ensures Init()[..3] == Lcd19264.Init(d).1[..3]
    ensures Selected(Init()[2].lines) == {1, 2, 3}
    ensures Commands(Lcd19264.Init(d).1) == [StartCommand(0), DisplayOn]
    ensures Commands(Init()) == [DisplayOn, StartCommand(0)]
    ensures Meaning(Commands(Init())[0]) == Display(true)
    ensures Meaning(Commands(Init())[1]) == SetStart(0)
  {
    var t := Init();
    assert t == [ResetLow, ResetHigh, Select(ChipLines(Low, Low, Low))] + [Command(DisplayOn), Command(AddrZ)];
    ProjectionsAppend([ResetLow, ResetHigh] + [Select(ChipLines(Low, Low, Low))], [Command(DisplayOn), Command(AddrZ)]);
    ProjectionsAppend([ResetLow, ResetHigh], [Select(ChipLines(Low, Low, Low))]);
    ProjectionsOfPair(ResetLow, ResetHigh);
    ProjectionsOfOne(Select(ChipLines(Low, Low, Low)));
    ProjectionsOfPair(Command(DisplayOn), Command(AddrZ));
    SelectChipSelects(0);
    var cur := Lcd19264.Init(d).1;
    assert cur == [ResetLow, ResetHigh, Select(SelectChip(0))] + [Command(StartCommand(0)), Command(DisplayOn)];
    ProjectionsAppend([ResetLow, ResetHigh, Select(SelectChip(0))], [Command(StartCommand(0)), Command(DisplayOn)]);
    ProjectionsAppend([ResetLow, ResetHigh], [Select(SelectChip(0))]);
    ProjectionsOfOne(Select(SelectChip(0)));
    ProjectionsOfPair(Command(StartCommand(0)), Command(DisplayOn));
  }
}
