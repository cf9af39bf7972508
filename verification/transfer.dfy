/** The frame-buffer-to-panel transfer of `show()`: how the 1536-byte buffer
    is split over three chips, eight pages and sixty-four column addresses,
    optionally mirrored for a rotated panel, and clocked out as bus events.
    The loop of the current driver and that of its predecessor with the
    `_reverse` flag are the same; both are modelled by `Show` here.

    The numbers are the driver's constants: 192 is LCD_WIDTH, 64 is
    LCD_HEIGHT (also the column addresses per chip and the buffer stride
    between chips), 1536 is LCD_BUFFSIZE = 192 * 64 / 8 and LCD_WIDTH * 8. */
module Transfer {
  import opened Bits
  import opened Seqs
  import opened Bus

  /** One byte-cell of the controllers: chip 0..2 (selected as chip+1),
      page 0..7, column address 0..63. */
  datatype Cell = Cell(chip: int, page: int, address: int)

  predicate ValidCell(c: Cell)
  {
    0 <= c.chip < 3 && 0 <= c.page < 8 && 0 <= c.address < 64
  }

  /** `address + posOffset` with `posOffset = page * LCD_WIDTH + chip * LCD_HEIGHT`. */
  function Offset(c: Cell): int
  {
    c.address + c.page * 192 + c.chip * 64
  }

  /** The cell a buffer index belongs to. */
  function CellAt(k: int): Cell
  {
    Cell((k % 192) / 64, k / 192, k % 64)
  }

  /** Every cell has an offset inside the buffer, and that offset names the cell back. */
  lemma OffsetInjective(c: Cell)
    requires ValidCell(c)
    ensures 0 <= Offset(c) < 1536
    ensures CellAt(Offset(c)) == c
  {
    var k := Offset(c);
    assert k / 192 == c.page && k % 192 == c.address + c.chip * 64;
  }

  /** Every buffer index is the offset of some cell. */
  lemma OffsetSurjective(k: int)
    requires 0 <= k < 1536
    ensures ValidCell(CellAt(k))
    ensures Offset(CellAt(k)) == k
  {
  }

  /** The mirrored index `LCD_WIDTH * 8 - 1 - offset` of the rotated path is
      also a bijection between the cells and the buffer. */
  lemma MirrorBijective(c: Cell, k: int)
    requires ValidCell(c)
    requires 0 <= k < 1536
    ensures 0 <= 1535 - Offset(c) < 1536
    ensures CellAt(1535 - (1535 - Offset(c))) == c
    ensures ValidCell(CellAt(1535 - k))
    ensures 1535 - Offset(CellAt(1535 - k)) == k
  {
    OffsetInjective(c);
    OffsetSurjective(1535 - k);
  }

  /** The `k`-th cell visited by the chip, page, address loops. */
  function ScanCell(k: int): Cell
  {
    Cell(k / 512, (k % 512) / 64, k % 64)
  }

  /** The buffer index the `k`-th data strobe reads (unrotated). */
  function ScanOffset(k: int): (o: int)
    ensures 0 <= k < 1536 ==> 0 <= o < 1536
  {
    Offset(ScanCell(k))
  }

  /** Position `k` in the scan of cell `c`. */
  function ScanPosition(c: Cell): int { c.chip * 512 + c.page * 64 + c.address }

  lemma ScanCellPosition(c: Cell)
    requires ValidCell(c)
    ensures 0 <= ScanPosition(c) < 1536
    ensures ScanCell(ScanPosition(c)) == c
  {
    var k := ScanPosition(c);
    assert k / 512 == c.chip && k % 512 == c.page * 64 + c.address;
  }

  lemma ScanCellInverse(k: int)
    requires 0 <= k < 1536
    ensures ValidCell(ScanCell(k))
    ensures ScanPosition(ScanCell(k)) == k
  {
  }

  /** The cell of the `k`-th step, by its properties only. */
  lemma ScanStep(k: int) returns (c: Cell)
    requires 0 <= k < 1536
    ensures ValidCell(c) && ScanPosition(c) == k && Offset(c) == ScanOffset(k)
  {
    c := ScanCell(k);
    ScanCellInverse(k);
  }

  /** The scan visits every buffer index exactly once: it is injective, and
      every index is reached at some step. */
  lemma ScanOrderBijective(i: int, j: int)
    requires 0 <= i < 1536 && 0 <= j < 1536
    ensures ValidCell(ScanCell(i))
    ensures 0 <= ScanOffset(i) < 1536
    ensures ScanOffset(i) == ScanOffset(j) ==> i == j
    ensures 0 <= ScanPosition(CellAt(i)) < 1536 && ScanOffset(ScanPosition(CellAt(i))) == i
  {
    ScanCellInverse(i);
    ScanCellInverse(j);
    OffsetInjective(ScanCell(i));
    OffsetInjective(ScanCell(j));
    OffsetSurjective(i);
    ScanCellPosition(CellAt(i));
  }

  /** The frame buffer after `fill(0)`: every byte zero. */
  function Blank(): (b: seq<Byte>)
    ensures |b| == 1536
    ensures forall i :: 0 <= i < 1536 ==> b[i] == 0
  {
    seq(1536, _ => 0)
  }

  /** The byte `show()` puts on the bus for a cell. Unrotated it is the
      buffer byte at the cell's offset; rotated it is the bit-reversed byte
      at `LCD_WIDTH * 8 - 1 - address - posOffset`. */
  function Transmitted(buf: seq<Byte>, rotated: bool, c: Cell): Byte
    requires |buf| == 1536 && ValidCell(c)
  {
    var posOffset := c.page * 192 + c.chip * 64;
    if rotated then ReverseBits(buf[192 * 8 - 1 - c.address - posOffset])
    else buf[c.address + posOffset]
  }

  /** One iteration of the page loop: page command, data-write mode once,
      then one strobe per column address. */
  function PageBlock(buf: seq<Byte>, rotated: bool, chip: int, page: int): seq<Event>
    requires |buf| == 1536 && 0 <= chip < 3 && 0 <= page < 8
  {
    [Command(PageCommand(page)), DataMode] +
    seq(64, address requires 0 <= address < 64 =>
      Strobe(Transmitted(buf, rotated, Cell(chip, page, address))))
  }

  /** One iteration of the chip loop: select chip+1, column address 0, then
      the eight pages. */
  function ChipBlock(buf: seq<Byte>, rotated: bool, chip: int): seq<Event>
    requires |buf| == 1536 && 0 <= chip < 3
  {
    [Select(SelectChip(chip + 1)), Command(ColumnCommand(0))] + Flatten(Pages(buf, rotated, chip))
  }

  function Pages(buf: seq<Byte>, rotated: bool, chip: int): seq<seq<Event>>
    requires |buf| == 1536 && 0 <= chip < 3
  {
    seq(8, page requires 0 <= page < 8 => PageBlock(buf, rotated, chip, page))
  }

  function Chips(buf: seq<Byte>, rotated: bool): seq<seq<Event>>
    requires |buf| == 1536
  {
    seq(3, chip requires 0 <= chip < 3 => ChipBlock(buf, rotated, chip))
  }

  /** `show()`: start line 0, the three chips, display on. */
  function Show(buf: seq<Byte>, rotated: bool): seq<Event>
    requires |buf| == 1536
  {
    [Command(StartCommand(0))] + Flatten(Chips(buf, rotated)) + [Command(DisplayOn)]
  }

  // ---------------------------------------------------------------------------
  // One page

  lemma PageBlockShape(buf: seq<Byte>, rotated: bool, chip: int, page: int)
    requires |buf| == 1536 && 0 <= chip < 3 && 0 <= page < 8
    ensures |PageBlock(buf, rotated, chip, page)| == 66
    ensures forall a :: 0 <= a < 64 ==>
      PageBlock(buf, rotated, chip, page)[2 + a] == Strobe(Transmitted(buf, rotated, Cell(chip, page, a)))
  {
  }

  lemma PageBlockProjections(buf: seq<Byte>, rotated: bool, chip: int, page: int)
    requires |buf| == 1536 && 0 <= chip < 3 && 0 <= page < 8
    ensures |Strobed(PageBlock(buf, rotated, chip, page))| == 64
    ensures forall a :: 0 <= a < 64 ==>
      Strobed(PageBlock(buf, rotated, chip, page))[a] == Transmitted(buf, rotated, Cell(chip, page, a))
    ensures Commands(PageBlock(buf, rotated, chip, page)) == [PageCommand(page)]
    ensures Selections(PageBlock(buf, rotated, chip, page)) == []
    ensures ModeSets(PageBlock(buf, rotated, chip, page)) == 1
  {
    var hd := [Command(PageCommand(page)), DataMode];
    var body := seq(64, address requires 0 <= address < 64 =>
      Strobe(Transmitted(buf, rotated, Cell(chip, page, address))));
    assert PageBlock(buf, rotated, chip, page) == hd + body;
    ProjectionsAppend(hd, body);
    ProjectionsOfPair(hd[0], hd[1]);
    ProjectOneEach(body, StrobeData);
    ProjectNone(body, CommandCode);
    ProjectNone(body, SelectLines);
    ProjectNone(body, ModeSet);
  }

  // ---------------------------------------------------------------------------
  // One chip

  lemma PagesShape(buf: seq<Byte>, rotated: bool, chip: int)
    requires |buf| == 1536 && 0 <= chip < 3
    ensures |Pages(buf, rotated, chip)| == 8
    ensures forall p :: 0 <= p < 8 ==> |Pages(buf, rotated, chip)[p]| == 66
  {
    forall p | 0 <= p < 8
      ensures |Pages(buf, rotated, chip)[p]| == 66
    {
      PageBlockShape(buf, rotated, chip, p);
    }
  }

  /** Event `j` of page `p` sits at `2 + 66p + j` of its chip block. */
  lemma ChipBlockAt(buf: seq<Byte>, rotated: bool, chip: int, page: int, j: int)
    requires |buf| == 1536 && 0 <= chip < 3 && 0 <= page < 8 && 0 <= j < 66
    ensures |ChipBlock(buf, rotated, chip)| == 530
    ensures |PageBlock(buf, rotated, chip, page)| == 66
    ensures ChipBlock(buf, rotated, chip)[2 + page * 66 + j] == PageBlock(buf, rotated, chip, page)[j]
  {
    var ps := Pages(buf, rotated, chip);
    PagesShape(buf, rotated, chip);
    FlattenLength(ps, 66);
    FlattenIndex(ps, 66, page, j);
  }

  lemma ChipBlockShape(buf: seq<Byte>, rotated: bool, chip: int, page: int, a: int)
    requires |buf| == 1536 && 0 <= chip < 3 && 0 <= page < 8 && 0 <= a < 64
    ensures |ChipBlock(buf, rotated, chip)| == 530
    ensures ChipBlock(buf, rotated, chip)[0] == Select(SelectChip(chip + 1))
    ensures ChipBlock(buf, rotated, chip)[1] == Command(ColumnCommand(0))
    ensures ChipBlock(buf, rotated, chip)[2 + page * 66] == Command(PageCommand(page))
    ensures ChipBlock(buf, rotated, chip)[3 + page * 66] == DataMode
    ensures ChipBlock(buf, rotated, chip)[4 + page * 66 + a] ==
      Strobe(Transmitted(buf, rotated, Cell(chip, page, a)))
  {
    ChipBlockAt(buf, rotated, chip, page, 0);
    ChipBlockAt(buf, rotated, chip, page, 1);
    ChipBlockAt(buf, rotated, chip, page, 2 + a);
    PageBlockShape(buf, rotated, chip, page);
  }

  lemma ChipBlockStrobes(buf: seq<Byte>, rotated: bool, chip: int)
    requires |buf| == 1536 && 0 <= chip < 3
    ensures |Strobed(ChipBlock(buf, rotated, chip))| == 512
    ensures forall p, a :: 0 <= p < 8 && 0 <= a < 64 ==>
      Strobed(ChipBlock(buf, rotated, chip))[p * 64 + a] == Transmitted(buf, rotated, Cell(chip, p, a))
  {
    var hd := [Select(SelectChip(chip + 1)), Command(ColumnCommand(0))];
    var ps := Pages(buf, rotated, chip);
    ProjectionsAppend(hd, Flatten(ps));
    ProjectionsOfPair(hd[0], hd[1]);
    ProjectFlatten(ps, StrobeData);
    var each := ProjectEach(ps, StrobeData);
    forall p | 0 <= p < 8
      ensures |each[p]| == 64
      ensures forall a :: 0 <= a < 64 ==> each[p][a] == Transmitted(buf, rotated, Cell(chip, p, a))
    {
      PageBlockProjections(buf, rotated, chip, p);
    }
    FlattenLength(each, 64);
    forall p, a | 0 <= p < 8 && 0 <= a < 64
      ensures Strobed(ChipBlock(buf, rotated, chip))[p * 64 + a] == Transmitted(buf, rotated, Cell(chip, p, a))
    {
      FlattenIndex(each, 64, p, a);
    }
  }

  lemma ChipBlockControl(buf: seq<Byte>, rotated: bool, chip: int)
    requires |buf| == 1536 && 0 <= chip < 3
    ensures |Commands(ChipBlock(buf, rotated, chip))| == 9
    ensures Commands(ChipBlock(buf, rotated, chip))[0] == ColumnCommand(0)
    ensures forall p :: 1 <= p < 9 ==> Commands(ChipBlock(buf, rotated, chip))[p] == PageCommand(p - 1)
    ensures Selections(ChipBlock(buf, rotated, chip)) == [SelectChip(chip + 1)]
    ensures ModeSets(ChipBlock(buf, rotated, chip)) == 8
  {
    var hd := [Select(SelectChip(chip + 1)), Command(ColumnCommand(0))];
    var ps := Pages(buf, rotated, chip);
    ProjectionsAppend(hd, Flatten(ps));
    ProjectionsOfPair(hd[0], hd[1]);
    PagesCommands(buf, rotated, chip);
    PagesSelectionsAndModes(buf, rotated, chip);
  }

  /** The page commands of one chip's pages, in page order. */
  lemma PagesCommands(buf: seq<Byte>, rotated: bool, chip: int)
    requires |buf| == 1536 && 0 <= chip < 3
    ensures |Project(Flatten(Pages(buf, rotated, chip)), CommandCode)| == 8
    ensures forall p :: 0 <= p < 8 ==>
      Project(Flatten(Pages(buf, rotated, chip)), CommandCode)[p] == PageCommand(p)
  {
    var ps := Pages(buf, rotated, chip);
    ProjectFlatten(ps, CommandCode);
    var cmds := ProjectEach(ps, CommandCode);
    forall p | 0 <= p < 8
      ensures cmds[p] == [PageCommand(p)]
    {
      PageBlockProjections(buf, rotated, chip, p);
    }
    FlattenLength(cmds, 1);
    forall p | 0 <= p < 8
      ensures Flatten(cmds)[p] == PageCommand(p)
    {
      FlattenIndex(cmds, 1, p, 0);
    }
  }

  /** One chip's pages select nothing and enter data-write mode once each. */
  lemma PagesSelectionsAndModes(buf: seq<Byte>, rotated: bool, chip: int)
    requires |buf| == 1536 && 0 <= chip < 3
    ensures Project(Flatten(Pages(buf, rotated, chip)), SelectLines) == []
    ensures |Project(Flatten(Pages(buf, rotated, chip)), ModeSet)| == 8
  {
    var ps := Pages(buf, rotated, chip);
    ProjectFlatten(ps, SelectLines);
    ProjectFlatten(ps, ModeSet);
    var sels := ProjectEach(ps, SelectLines);
    var modes := ProjectEach(ps, ModeSet);
    forall p | 0 <= p < 8
      ensures sels[p] == []
      ensures |modes[p]| == 1
    {
      PageBlockProjections(buf, rotated, chip, p);
    }
    FlattenLength(sels, 0);
    FlattenLength(modes, 1);
  }

  // ---------------------------------------------------------------------------
  // The whole transfer

  lemma ChipsShape(buf: seq<Byte>, rotated: bool)
    requires |buf| == 1536
    ensures |Chips(buf, rotated)| == 3
    ensures forall c :: 0 <= c < 3 ==> |Chips(buf, rotated)[c]| == 530
  {
    forall c | 0 <= c < 3
      ensures |Chips(buf, rotated)[c]| == 530
    {
      ChipBlockShape(buf, rotated, c, 0, 0);
    }
  }

  /** Where each event of `show()` sits: 1592 events in all, the start-line
      command first and display-on last; chip `c` (selected as c+1) starts at
      1 + 530c with its chip select and column-0 command; its page `p` starts
      66p later with the page command and data-write mode, followed by the
      64 strobes of that page. These positions cover the whole trace
      (2 + 3 * (2 + 8 * (2 + 64)) == 1592). */
  lemma ShowLayout(buf: seq<Byte>, rotated: bool, c: Cell)
    requires |buf| == 1536 && ValidCell(c)
    ensures |Show(buf, rotated)| == 1592
    ensures Show(buf, rotated)[0] == Command(0xC0)
    ensures Show(buf, rotated)[1591] == Command(0x3F)
    ensures Show(buf, rotated)[1 + c.chip * 530] == Select(SelectChip(c.chip + 1))
    ensures Show(buf, rotated)[2 + c.chip * 530] == Command(0x40)
    ensures Show(buf, rotated)[3 + c.chip * 530 + c.page * 66] == Command(0xB8 + c.page)
    ensures Show(buf, rotated)[4 + c.chip * 530 + c.page * 66] == DataMode
    ensures Show(buf, rotated)[5 + c.chip * 530 + c.page * 66 + c.address] ==
      Strobe(Transmitted(buf, rotated, c))
  {
    ShowEnds(buf, rotated);
    ShowChipHeads(buf, rotated, c.chip);
    ShowPageHeads(buf, rotated, c.chip, c.page);
    ShowStrobeEvent(buf, rotated, c);
  }

  lemma ShowChipHeads(buf: seq<Byte>, rotated: bool, chip: int)
    requires |buf| == 1536 && 0 <= chip < 3
    ensures |Show(buf, rotated)| == 1592
    ensures Show(buf, rotated)[1 + chip * 530] == Select(SelectChip(chip + 1))
    ensures Show(buf, rotated)[2 + chip * 530] == Command(0x40)
  {
    ChipBlockShape(buf, rotated, chip, 0, 0);
    ShowAt(buf, rotated, chip, 0);
    ShowAt(buf, rotated, chip, 1);
  }

  lemma ShowPageHeads(buf: seq<Byte>, rotated: bool, chip: int, page: int)
    requires |buf| == 1536 && 0 <= chip < 3 && 0 <= page < 8
    ensures |Show(buf, rotated)| == 1592
    ensures Show(buf, rotated)[3 + chip * 530 + page * 66] == Command(0xB8 + page)
    ensures Show(buf, rotated)[4 + chip * 530 + page * 66] == DataMode
  {
    ChipBlockShape(buf, rotated, chip, page, 0);
    ShowAt(buf, rotated, chip, 2 + page * 66);
    ShowAt(buf, rotated, chip, 3 + page * 66);
  }

  lemma ShowStrobeEvent(buf: seq<Byte>, rotated: bool, c: Cell)
    requires |buf| == 1536 && ValidCell(c)
    ensures |Show(buf, rotated)| == 1592
    ensures Show(buf, rotated)[5 + c.chip * 530 + c.page * 66 + c.address] ==
      Strobe(Transmitted(buf, rotated, c))
  {
    ChipBlockShape(buf, rotated, c.chip, c.page, c.address);
    ShowAt(buf, rotated, c.chip, 4 + c.page * 66 + c.address);
    assert Cell(c.chip, c.page, c.address) == c;
  }

  /** The first and last events of `show()`, around 1590 events of chip blocks. */
  lemma ShowEnds(buf: seq<Byte>, rotated: bool)
    requires |buf| == 1536
    ensures |Show(buf, rotated)| == 1592
    ensures Show(buf, rotated)[0] == Command(0xC0)
    ensures Show(buf, rotated)[1591] == Command(0x3F)
  {
    var cs := Chips(buf, rotated);
    ChipsShape(buf, rotated);
    FlattenLength(cs, 530);
    assert Show(buf, rotated) == [Command(StartCommand(0))] + Flatten(cs) + [Command(DisplayOn)];
  }

  /** Event `j` of chip block `chip` sits at `1 + 530 chip + j` of the trace. */
  lemma ShowAt(buf: seq<Byte>, rotated: bool, chip: int, j: int)
    requires |buf| == 1536 && 0 <= chip < 3 && 0 <= j < 530
    ensures |Show(buf, rotated)| == 1592
    ensures |ChipBlock(buf, rotated, chip)| == 530
    ensures Show(buf, rotated)[1 + chip * 530 + j] == ChipBlock(buf, rotated, chip)[j]
  {
    var cs := Chips(buf, rotated);
    ChipsShape(buf, rotated);
    FlattenLength(cs, 530);
    FlattenIndex(cs, 530, chip, j);
    assert Show(buf, rotated) == [Command(StartCommand(0))] + Flatten(cs) + [Command(DisplayOn)];
  }

  lemma ShowProjections(buf: seq<Byte>, rotated: bool)
    requires |buf| == 1536
    ensures Strobed(Show(buf, rotated)) == Flatten(ProjectEach(Chips(buf, rotated), StrobeData))
    ensures Commands(Show(buf, rotated)) ==
      [StartCommand(0)] + Flatten(ProjectEach(Chips(buf, rotated), CommandCode)) + [DisplayOn]
    ensures Selections(Show(buf, rotated)) == Flatten(ProjectEach(Chips(buf, rotated), SelectLines))
    ensures ModeSets(Show(buf, rotated)) == |Flatten(ProjectEach(Chips(buf, rotated), ModeSet))|
  {
    var cs := Chips(buf, rotated);
    var first := [Command(StartCommand(0))];
    var last := [Command(DisplayOn)];
    ProjectionsAppend(first + Flatten(cs), last);
    ProjectionsAppend(first, Flatten(cs));
    ProjectionsOfOne(first[0]);
    ProjectionsOfOne(last[0]);
    ProjectFlatten(cs, StrobeData);
    ProjectFlatten(cs, CommandCode);
    ProjectFlatten(cs, SelectLines);
    ProjectFlatten(cs, ModeSet);
  }

  /** The strobes of `show()` are those of the three chip blocks, 512 each. */
  lemma ShowStrobeBlocks(buf: seq<Byte>, rotated: bool)
    requires |buf| == 1536
    ensures Strobed(Show(buf, rotated)) == Flatten(ProjectEach(Chips(buf, rotated), StrobeData))
    ensures |ProjectEach(Chips(buf, rotated), StrobeData)| == 3
    ensures forall k :: 0 <= k < 3 ==> |ProjectEach(Chips(buf, rotated), StrobeData)[k]| == 512
    ensures |Strobed(Show(buf, rotated))| == 1536
  {
    ShowProjections(buf, rotated);
    var each := ProjectEach(Chips(buf, rotated), StrobeData);
    forall k | 0 <= k < 3
      ensures |each[k]| == 512
    {
      ChipBlockStrobes(buf, rotated, k);
    }
    FlattenLength(each, 512);
  }

  /** The strobe `show()` sends for one cell. */
  lemma ShowStrobeAt(buf: seq<Byte>, rotated: bool, c: Cell)
    requires |buf| == 1536 && ValidCell(c)
    ensures 0 <= Offset(c) < 1536
    ensures 0 <= ScanPosition(c) < |Strobed(Show(buf, rotated))| &&
      Strobed(Show(buf, rotated))[ScanPosition(c)] ==
      (if rotated then ReverseBits(buf[1535 - Offset(c)]) else buf[Offset(c)])
  {
    ScanCellPosition(c);
    assert ScanOffset(ScanPosition(c)) == Offset(c);
    ShowStrobeNumber(buf, rotated, ScanPosition(c));
  }

  /** Every data strobe of `show()` in order: there are exactly 1536, and the
      one for cell `c` (the `ScanPosition(c)`-th) carries the buffer byte at
      the cell's offset unchanged, or, on a rotated panel, the bit-reversed
      byte at the mirrored index. */
  lemma ShowStrobes(buf: seq<Byte>, rotated: bool)
    requires |buf| == 1536
    ensures |Strobed(Show(buf, rotated))| == 1536
    ensures forall c :: ValidCell(c) ==>
      Strobed(Show(buf, rotated))[ScanPosition(c)] ==
      (if rotated then ReverseBits(buf[1535 - Offset(c)]) else buf[Offset(c)])
  {
    forall c | ValidCell(c)
      ensures 0 <= ScanPosition(c) < |Strobed(Show(buf, rotated))| &&
        Strobed(Show(buf, rotated))[ScanPosition(c)] ==
        (if rotated then ReverseBits(buf[1535 - Offset(c)]) else buf[Offset(c)])
    {
      ShowStrobeAt(buf, rotated, c);
    }
    ShowStrobeBlocks(buf, rotated);
  }

  /** The same fact indexed by strobe number: the `k`-th strobe carries the
      byte at the `k`-th offset of the scan, mirrored and bit-reversed when
      rotated. */
  lemma ShowTransmits(buf: seq<Byte>, rotated: bool)
    requires |buf| == 1536
    ensures |Strobed(Show(buf, rotated))| == 1536
    ensures forall k :: 0 <= k < 1536 ==>
      Strobed(Show(buf, rotated))[k] ==
      (if rotated then ReverseBits(buf[1535 - ScanOffset(k)]) else buf[ScanOffset(k)])
  {
    forall k | 0 <= k < 1536
      ensures 0 <= k < |Strobed(Show(buf, rotated))| && Strobed(Show(buf, rotated))[k] ==
        (if rotated then ReverseBits(buf[1535 - ScanOffset(k)]) else buf[ScanOffset(k)])
    {
      ShowStrobeNumber(buf, rotated, k);
    }
    ShowStrobeBlocks(buf, rotated);
  }

  /** The `k`-th strobe of `show()` is the one for the `k`-th cell of the scan. */
  lemma ShowStrobeNumber(buf: seq<Byte>, rotated: bool, k: int)
    requires |buf| == 1536 && 0 <= k < 1536
    ensures 0 <= k < |Strobed(Show(buf, rotated))| && Strobed(Show(buf, rotated))[k] ==
      (if rotated then ReverseBits(buf[1535 - ScanOffset(k)]) else buf[ScanOffset(k)])
  {
    ShowStrobeBlocks(buf, rotated);
    var each := ProjectEach(Chips(buf, rotated), StrobeData);
    var c := ScanCell(k);
    ScanCellInverse(k);
    var j := c.page * 64 + c.address;
    ChipBlockStrobes(buf, rotated, c.chip);
    assert each[c.chip] == Strobed(ChipBlock(buf, rotated, c.chip));
    assert each[c.chip][j] == Transmitted(buf, rotated, Cell(c.chip, c.page, c.address));
    FlattenIndex(each, 512, c.chip, j);
    assert c.chip * 512 + j == k;
    assert 192 * 8 - 1 - c.address - (c.page * 192 + c.chip * 64) == 1535 - ScanOffset(k);
  }

  /** The control traffic of `show()`, the same for every buffer and rotation:
      29 commands, start line 0 first and display on last, and for each chip
      a column-0 command followed by the eight page commands 0xB8 .. 0xBF;
      three chip selects for chips 1, 2, 3 in turn; data-write mode entered
      once per page, 24 times. */
  lemma ShowControl(buf: seq<Byte>, rotated: bool)
    requires |buf| == 1536
    ensures |Commands(Show(buf, rotated))| == 29
    ensures Commands(Show(buf, rotated))[0] == 0xC0
    ensures Commands(Show(buf, rotated))[28] == 0x3F
    ensures forall i :: 0 <= i < 27 ==>
      Commands(Show(buf, rotated))[i + 1] == (if i % 9 == 0 then 0x40 else 0xB8 + (i % 9 - 1))
    ensures Selections(Show(buf, rotated)) == [SelectChip(1), SelectChip(2), SelectChip(3)]
    ensures ModeSets(Show(buf, rotated)) == 24
  {
    ShowProjections(buf, rotated);
    ChipsCommands(buf, rotated);
    ChipsSelectionsAndModes(buf, rotated);
  }

  /** The commands of the three chip blocks: per chip, column 0 then pages 0 .. 7. */
  lemma ChipsCommands(buf: seq<Byte>, rotated: bool)
    requires |buf| == 1536
    ensures |Flatten(ProjectEach(Chips(buf, rotated), CommandCode))| == 27
    ensures forall i :: 0 <= i < 27 ==>
      Flatten(ProjectEach(Chips(buf, rotated), CommandCode))[i] ==
      (if i % 9 == 0 then 0x40 else 0xB8 + (i % 9 - 1))
  {
    var cmds := ProjectEach(Chips(buf, rotated), CommandCode);
    forall k | 0 <= k < 3
      ensures |cmds[k]| == 9
      ensures forall j :: 0 <= j < 9 ==> cmds[k][j] == (if j == 0 then 0x40 else 0xB8 + (j - 1))
    {
      ChipBlockControl(buf, rotated, k);
    }
    FlattenLength(cmds, 9);
    forall i | 0 <= i < 27
      ensures Flatten(cmds)[i] == (if i % 9 == 0 then 0x40 else 0xB8 + (i % 9 - 1))
    {
      FlattenIndex(cmds, 9, i / 9, i % 9);
    }
  }

  /** The three chip blocks select chips 1, 2, 3 and enter data mode 24 times. */
  lemma ChipsSelectionsAndModes(buf: seq<Byte>, rotated: bool)
    requires |buf| == 1536
    ensures Flatten(ProjectEach(Chips(buf, rotated), SelectLines)) == [SelectChip(1), SelectChip(2), SelectChip(3)]
    ensures |Flatten(ProjectEach(Chips(buf, rotated), ModeSet))| == 24
  {
    var sels := ProjectEach(Chips(buf, rotated), SelectLines);
    var modes := ProjectEach(Chips(buf, rotated), ModeSet);
    forall k | 0 <= k < 3
      ensures sels[k] == [SelectChip(k + 1)]
      ensures |modes[k]| == 8
    {
      ChipBlockControl(buf, rotated, k);
    }
    FlattenLength(sels, 1);
    FlattenLength(modes, 8);
    FlattenIndex(sels, 1, 0, 0);
    FlattenIndex(sels, 1, 1, 0);
    FlattenIndex(sels, 1, 2, 0);
  }

  /** Showing an all-zero buffer sends 1536 zero bytes whatever the rotation,
      since a reversed zero byte is still zero. */
  lemma ShowZeros(buf: seq<Byte>, rotated: bool)
    requires |buf| == 1536
    requires forall i :: 0 <= i < 1536 ==> buf[i] == 0
    ensures |Strobed(Show(buf, rotated))| == 1536
    ensures forall k :: 0 <= k < 1536 ==> Strobed(Show(buf, rotated))[k] == 0
  {
    ShowTransmits(buf, rotated);
    ReverseBitsExamples();
    forall k | 0 <= k < 1536
      ensures Strobed(Show(buf, rotated))[k] == 0
    {
      ScanOrderBijective(k, k);
    }
  }
}
