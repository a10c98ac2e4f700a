/** The text terminal of drivers/devices/gtty/gtty.c on the video memory of
    drivers/devices/vga/vga.c: a window on the last rows of unbounded text. */
module Terminal {
  import opened Machine

  const ROWS := 25
  const COLS := 80
  const CELLS := 2000
  const WORD := 0x1_0000_0000

  datatype Cell = Cell(ch: Byte, colour: Byte)

  const BACKSPACE: Byte := 8
  const TAB: Byte := 9
  const NEWLINE: Byte := 10
  const RETURN: Byte := 13
  const SPACE: Byte := 32

  function Row(colour: Byte): (r: seq<Cell>)
    ensures |r| == COLS && forall i :: 0 <= i < COLS ==> r[i] == Cell(SPACE, colour)
  {
    seq(COLS, i requires 0 <= i < COLS => Cell(SPACE, colour))
  }

  // ---------------------------------------------------------------- the unbounded terminal

  /** All cells ever shown, row after row, the position of the next character among them, and
      how many typed characters a backspace may still take back. */
  datatype Text = Text(cells: seq<Cell>, pos: nat, typed: nat)

  ghost predicate TextOk(t: Text) {
    CELLS <= |t.cells| && |t.cells| % COLS == 0 && t.pos < |t.cells|
  }

  /** Move on to pos; a position below the last row opens a new row. */
  function At(cells: seq<Cell>, pos: nat, typed: nat, colour: Byte): Text {
    Text(if pos >= |cells| then cells + Row(colour) else cells, pos, typed)
  }

  function Plain(t: Text, c: Byte, colour: Byte): Text
    requires t.pos < |t.cells|
  {
    At(t.cells[t.pos := Cell(c, colour)], t.pos + 1, t.typed, colour)
  }

  function Spaces(t: Text, n: nat, colour: Byte): Text
    requires TextOk(t)
    decreases n
  {
    if n == 0 then t else Spaces(Plain(t, SPACE, colour), n - 1, colour)
  }

  function Feed(t: Text, c: Byte, colour: Byte): Text
    requires TextOk(t)
  {
    if c == BACKSPACE then
      if t.typed == 0 then t
      else
        var back := if t.pos == 0 then 0 else t.pos - 1;
        Text(t.cells[back := Cell(SPACE, colour)], back, t.typed - 1)
    else if c == NEWLINE then At(t.cells, (t.pos / COLS + 1) * COLS, t.typed, colour)
    else if c == TAB then Spaces(t, 4, colour)
    else if c == RETURN then Text(t.cells, t.pos / COLS * COLS, t.typed)
    else Plain(t, c, colour)
  }

  lemma RowStart(pos: nat, n: nat)
    requires pos < n && n % COLS == 0
    ensures (pos / COLS + 1) * COLS <= n && pos / COLS * COLS <= pos
  {
  }

  lemma FeedOk(t: Text, c: Byte, colour: Byte)
    requires TextOk(t)
    ensures TextOk(Feed(t, c, colour))
  {
    RowStart(t.pos, |t.cells|);
    if c == TAB {
      SpacesOk(t, 4, colour);
    }
  }

  lemma {:induction false} SpacesOk(t: Text, n: nat, colour: Byte)
    requires TextOk(t)
    ensures TextOk(Spaces(t, n, colour))
    decreases n
  {
    if n > 0 {
      SpacesOk(Plain(t, SPACE, colour), n - 1, colour);
    }
  }

  function FeedAll(t: Text, cs: seq<Byte>, colour: Byte): Text
    requires TextOk(t)
    decreases |cs|
  {
    if cs == [] then t else FeedOk(t, cs[0], colour); FeedAll(Feed(t, cs[0], colour), cs[1..], colour)
  }

  // ---------------------------------------------------------------- the screen

  /** Video memory, the position main_x, main_y on it and input_buffer_index. */
  datatype Screen = Screen(mem: seq<Cell>, x: int, y: int, typed: nat)

  ghost predicate ScreenOk(s: Screen) {
    |s.mem| == CELLS && 0 <= s.x < COLS && 0 <= s.y < ROWS
  }

  /** gtty_xy_to_location. */
  function Location(x: int, y: int): (l: int)
    ensures 0 <= x < COLS && 0 <= y < ROWS ==> 0 <= l < CELLS
  {
    x + y * COLS
  }

  function Scrolled(mem: seq<Cell>, colour: Byte): seq<Cell>
    requires |mem| == CELLS
  {
    mem[COLS..] + Row(colour)
  }

  /** The checks that end each turn of the loop of gtty_write_vga. */
  function Settle(s: Screen, colour: Byte): Screen
    requires |s.mem| == CELLS
  {
    var t := if s.x > COLS - 1 then s.(x := 0, y := s.y + 1) else s;
    if t.y > ROWS - 1 then t.(mem := Scrolled(t.mem, colour), y := t.y - 1) else t
  }

  function PutPlain(s: Screen, c: Byte, colour: Byte): Screen
    requires ScreenOk(s)
  {
    Settle(s.(mem := s.mem[Location(s.x, s.y) := Cell(c, colour)], x := s.x + 1), colour)
  }

  function PutSpaces(s: Screen, n: nat, colour: Byte): Screen
    requires ScreenOk(s)
    decreases n
  {
    if n == 0 then s else PutSpaces(PutPlain(s, SPACE, colour), n - 1, colour)
  }

  function Back(s: Screen, colour: Byte): Screen
    requires ScreenOk(s)
  {
    if s.typed == 0 then s
    else
      var t := if s.x > 0 then s.(x := s.x - 1) else if s.y > 0 then s.(x := COLS - 1, y := s.y - 1) else s;
      t.(mem := t.mem[Location(t.x, t.y) := Cell(SPACE, colour)], typed := s.typed - 1)
  }

  function Put(s: Screen, c: Byte, colour: Byte): Screen
    requires ScreenOk(s)
  {
    if c == BACKSPACE then Settle(Back(s, colour), colour)
    else if c == NEWLINE then Settle(s.(x := 0, y := s.y + 1), colour)
    else if c == TAB then PutSpaces(s, 4, colour)
    else if c == RETURN then Settle(s.(x := 0), colour)
    else PutPlain(s, c, colour)
  }

  lemma {:induction false} PutSpacesOk(s: Screen, n: nat, colour: Byte)
    requires ScreenOk(s)
    ensures ScreenOk(PutSpaces(s, n, colour))
    decreases n
  {
    if n > 0 {
      PutSpacesOk(PutPlain(s, SPACE, colour), n - 1, colour);
    }
  }

  lemma PutOk(s: Screen, c: Byte, colour: Byte)
    requires ScreenOk(s)
    ensures ScreenOk(Put(s, c, colour))
  {
    if c == TAB {
      PutSpacesOk(s, 4, colour);
    } else if c == BACKSPACE {
      assert ScreenOk(Back(s, colour));
    }
  }

  function PutAll(s: Screen, cs: seq<Byte>, colour: Byte): Screen
    requires ScreenOk(s)
    decreases |cs|
  {
    if cs == [] then s else PutOk(s, cs[0], colour); PutAll(Put(s, cs[0], colour), cs[1..], colour)
  }

  // ---------------------------------------------------------------- the window

  /** The screen shows the last rows of the text, with the same position. */
  ghost predicate Shows(s: Screen, t: Text) {
    && ScreenOk(s) && TextOk(t)
    && s.mem == t.cells[|t.cells| - CELLS..]
    && t.pos == |t.cells| - CELLS + Location(s.x, s.y)
    && s.typed == t.typed
  }

  /** The one event that takes the text above the window: a backspace at its first cell. */
  predicate LeavesWindow(t: Text, c: Byte) {
    c == BACKSPACE && t.typed > 0 && t.pos > 0 && t.pos == |t.cells| - CELLS
  }

  /** The same, while the position may still be past the end of a row or of the last row. */
  ghost predicate Unsettled(s: Screen, t: Text) {
    && |s.mem| == CELLS && CELLS <= |t.cells| && |t.cells| % COLS == 0
    && s.mem == t.cells[|t.cells| - CELLS..] && s.typed == t.typed
    && t.pos == |t.cells| - CELLS + Location(s.x, s.y)
    && ((0 <= s.x <= COLS && 0 <= s.y < ROWS) || (s.x == 0 && s.y == ROWS))
  }

  /** Writing inside the window is writing into the text. */
  lemma WriteShows(s: Screen, t: Text, cell: Cell)
    requires Shows(s, t)
    ensures s.mem[Location(s.x, s.y) := cell] == t.cells[t.pos := cell][|t.cells| - CELLS..]
    ensures Unsettled(s.(mem := s.mem[Location(s.x, s.y) := cell], x := s.x + 1), Text(t.cells[t.pos := cell], t.pos + 1, t.typed))
  {
  }

  /** Moving to the next position, or to the start of the next row, with the checks. */
  lemma SettleShows(s: Screen, t: Text, colour: Byte)
    requires Unsettled(s, t)
    ensures Shows(Settle(s, colour), At(t.cells, t.pos, t.typed, colour))
  {
    var more := t.cells + Row(colour);
    if t.pos >= |t.cells| {
      assert s.mem[COLS..] == t.cells[|t.cells| - CELLS + COLS..];
      assert more[|more| - CELLS..] == t.cells[|t.cells| - CELLS + COLS..] + Row(colour);
    }
  }

  lemma PlainShows(s: Screen, t: Text, c: Byte, colour: Byte)
    requires Shows(s, t)
    ensures Shows(PutPlain(s, c, colour), Plain(t, c, colour))
  {
    var cell := Cell(c, colour);
    WriteShows(s, t, cell);
    var u := Text(t.cells[t.pos := cell], t.pos + 1, t.typed);
    SettleShows(s.(mem := s.mem[Location(s.x, s.y) := cell], x := s.x + 1), u, colour);
  }

  lemma {:induction false} SpacesShow(s: Screen, t: Text, n: nat, colour: Byte)
    requires Shows(s, t)
    ensures Shows(PutSpaces(s, n, colour), Spaces(t, n, colour))
    decreases n
  {
    if n > 0 {
      PlainShows(s, t, SPACE, colour);
      SpacesShow(PutPlain(s, SPACE, colour), Plain(t, SPACE, colour), n - 1, colour);
    }
  }

  lemma RowOf(s: Screen, t: Text)
    requires Shows(s, t)
    ensures t.pos / COLS * COLS == t.pos - s.x && (t.pos / COLS + 1) * COLS == t.pos - s.x + COLS
  {
    assert t.pos % COLS == s.x;
  }

  lemma BackShows(s: Screen, t: Text, colour: Byte)
    requires Shows(s, t)
    ensures Shows(Put(s, BACKSPACE, colour), Feed(t, BACKSPACE, colour)) <==> !LeavesWindow(t, BACKSPACE)
  {
    var base := |t.cells| - CELLS;
    if t.typed > 0 && !LeavesWindow(t, BACKSPACE) {
      var back := if t.pos == 0 then 0 else t.pos - 1;
      var b := if s.x > 0 then s.(x := s.x - 1) else if s.y > 0 then s.(x := COLS - 1, y := s.y - 1) else s;
      WriteShows(b, t.(pos := back), Cell(SPACE, colour));
    }
  }

  /** One character: the screen goes on showing the end of the text, except for a backspace that
      would leave the window. */
  lemma PutShowsIff(s: Screen, t: Text, c: Byte, colour: Byte)
    requires Shows(s, t)
    ensures Shows(Put(s, c, colour), Feed(t, c, colour)) <==> !LeavesWindow(t, c)
  {
    if c == BACKSPACE {
      BackShows(s, t, colour);
    } else if c == TAB {
      SpacesShow(s, t, 4, colour);
    } else if c == NEWLINE {
      RowOf(s, t);
      SettleShows(s.(x := 0, y := s.y + 1), t.(pos := (t.pos / COLS + 1) * COLS), colour);
    } else if c == RETURN {
      RowOf(s, t);
    } else {
      PlainShows(s, t, c, colour);
    }
  }

  /** No backspace in cs leaves the window; so in particular when there is none. */
  ghost predicate StaysInWindow(t: Text, cs: seq<Byte>, colour: Byte)
    requires TextOk(t)
    decreases |cs|
  {
    cs == [] || (!LeavesWindow(t, cs[0])
                 && (FeedOk(t, cs[0], colour); StaysInWindow(Feed(t, cs[0], colour), cs[1..], colour)))
  }

  lemma {:induction false} NoBackspaceStays(t: Text, cs: seq<Byte>, colour: Byte)
    requires TextOk(t) && BACKSPACE !in cs
    ensures StaysInWindow(t, cs, colour)
    decreases |cs|
  {
    if cs != [] {
      FeedOk(t, cs[0], colour);
      NoBackspaceStays(Feed(t, cs[0], colour), cs[1..], colour);
    }
  }

  /** For every string: the screen after it shows the last rows of the unbounded text after it. */
  lemma {:induction false} ScreenShowsText(s: Screen, t: Text, cs: seq<Byte>, colour: Byte)
    requires Shows(s, t) && StaysInWindow(t, cs, colour)
    ensures Shows(PutAll(s, cs, colour), FeedAll(t, cs, colour))
    decreases |cs|
  {
    if cs != [] {
      PutShowsIff(s, t, cs[0], colour);
      ScreenShowsText(Put(s, cs[0], colour), Feed(t, cs[0], colour), cs[1..], colour);
    }
  }

  // ---------------------------------------------------------------- out of the window

  function Repeat(cs: seq<Byte>, n: nat): seq<Byte> {
    if n == 0 then [] else cs + Repeat(cs, n - 1)
  }

  /** From t the string cs leads to u without leaving the window. */
  ghost predicate Leads(t: Text, cs: seq<Byte>, colour: Byte, u: Text) {
    TextOk(t) && StaysInWindow(t, cs, colour) && FeedAll(t, cs, colour) == u && TextOk(u)
  }

  lemma LeadsOne(t: Text, c: Byte, colour: Byte)
    requires TextOk(t) && !LeavesWindow(t, c)
    ensures Leads(t, [c], colour, Feed(t, c, colour))
  {
    FeedOk(t, c, colour);
    assert [c][1..] == [];
  }

  lemma {:induction false} LeadsOn(t: Text, a: seq<Byte>, u: Text, b: seq<Byte>, v: Text, colour: Byte)
    requires Leads(t, a, colour, u) && Leads(u, b, colour, v)
    ensures Leads(t, a + b, colour, v)
    decreases |a|
  {
    if a == [] {
      assert a + b == b;
    } else {
      FeedOk(t, a[0], colour);
      LeadsOn(Feed(t, a[0], colour), a[1..], u, b, v, colour);
      assert (a + b)[0] == a[0] && (a + b)[1..] == a[1..] + b;
    }
  }

  /** Newlines inside the text move down row by row. */
  lemma {:induction false} LinesDown(t: Text, n: nat, colour: Byte)
    requires TextOk(t) && t.pos % COLS == 0 && t.pos + n * COLS < |t.cells|
    ensures Leads(t, Repeat([NEWLINE], n), colour, t.(pos := t.pos + n * COLS))
    decreases n
  {
    if n > 0 {
      LeadsOne(t, NEWLINE, colour);
      var u := t.(pos := t.pos + COLS);
      assert Feed(t, NEWLINE, colour) == u;
      LinesDown(u, n - 1, colour);
      LeadsOn(t, [NEWLINE], u, Repeat([NEWLINE], n - 1), t.(pos := t.pos + n * COLS), colour);
    }
  }

  /** A backspace from the start of a row and a carriage return move up one row, if the window has one. */
  lemma RowUp(t: Text, colour: Byte)
    requires TextOk(t) && t.pos % COLS == 0 && t.typed > 0 && t.pos > |t.cells| - CELLS
    ensures var u := Text(t.cells[t.pos - 1 := Cell(SPACE, colour)], t.pos - COLS, t.typed - 1);
            Leads(t, [BACKSPACE, RETURN], colour, u)
  {
    LeadsOne(t, BACKSPACE, colour);
    var v := Feed(t, BACKSPACE, colour);
    LeadsOne(v, RETURN, colour);
    assert (t.pos - 1) / COLS * COLS == t.pos - COLS;
    LeadsOn(t, [BACKSPACE], v, [RETURN], Feed(v, RETURN, colour), colour);
    assert [BACKSPACE] + [RETURN] == [BACKSPACE, RETURN];
  }

  lemma {:induction false} LinesUp(t: Text, n: nat, colour: Byte) returns (u: Text)
    requires TextOk(t) && t.pos % COLS == 0 && t.typed >= n && t.pos - n * COLS >= |t.cells| - CELLS
    ensures Leads(t, Repeat([BACKSPACE, RETURN], n), colour, u)
    ensures |u.cells| == |t.cells| && u.pos == t.pos - n * COLS && u.typed == t.typed - n
    decreases n
  {
    if n == 0 {
      u := t;
    } else {
      RowUp(t, colour);
      var v := Text(t.cells[t.pos - 1 := Cell(SPACE, colour)], t.pos - COLS, t.typed - 1);
      u := LinesUp(v, n - 1, colour);
      LeadsOn(t, [BACKSPACE, RETURN], v, Repeat([BACKSPACE, RETURN], n - 1), u, colour);
    }
  }

  /** 25 newlines on a fresh screen, then a backspace and a carriage return 24 times. */
  function ToTheTop(): seq<Byte> {
    Repeat([NEWLINE], 24) + [NEWLINE] + Repeat([BACKSPACE, RETURN], 24)
  }

  /** With 25 typed characters to take back, that string leads a fresh screen to the first cell of
      its window; the next backspace makes the screen and the text differ. */
  lemma BackspaceLeaves(s: Screen, t: Text, colour: Byte)
    requires Shows(s, t) && |t.cells| == CELLS && t.pos == 0 && t.typed == 25
    ensures var u, v := FeedAll(t, ToTheTop(), colour), PutAll(s, ToTheTop(), colour);
            && Shows(v, u) && LeavesWindow(u, BACKSPACE) && !Shows(Put(v, BACKSPACE, colour), Feed(u, BACKSPACE, colour))
  {
    LinesDown(t, 24, colour);
    var a := t.(pos := 24 * COLS);
    LeadsOne(a, NEWLINE, colour);
    var b := Feed(a, NEWLINE, colour);
    assert b.pos == CELLS && |b.cells| == CELLS + COLS;
    var u := LinesUp(b, 24, colour);
    LeadsOn(t, Repeat([NEWLINE], 24), a, [NEWLINE], b, colour);
    LeadsOn(t, Repeat([NEWLINE], 24) + [NEWLINE], b, Repeat([BACKSPACE, RETURN], 24), u, colour);
    ScreenShowsText(s, t, ToTheTop(), colour);
    PutShowsIff(PutAll(s, ToTheTop(), colour), u, BACKSPACE, colour);
  }

  // ---------------------------------------------------------------- the drivers

  class Display {
    const video: array<Cell>
    var colour: Byte
    var x: int
    var y: int
    var typed: nat
    var pixels: bool

    ghost predicate Valid()
      reads this
    {
      video.Length == CELLS && 0 <= x < COLS && 0 <= y < ROWS
    }

    ghost function Scr(): Screen
      reads this, video
    {
      Screen(video[..], x, y, typed)
    }

    constructor (video: array<Cell>, colour: Byte)
      requires video.Length == CELLS
      ensures Valid() && this.video == video && this.colour == colour && Scr() == Screen(video[..], 0, 0, 0) && !pixels
    {
      this.video, this.colour := video, colour;
      x, y, typed, pixels := 0, 0, 0, false;
    }

    /** vga_dev_write, with the 32-bit sum of its bounds check: no write leaves video memory, also
        when start_at + size wraps around, which writes nothing. */
    method WriteCells(start_at: nat, size: nat, buffer: seq<Byte>) returns (r: int)
      requires video.Length == CELLS && start_at < WORD && size < WORD && size <= |buffer|
      modifies video
      ensures start_at >= CELLS ==> r == -1 && video[..] == old(video[..])
      ensures start_at < CELLS && start_at + size >= WORD ==> video[..] == old(video[..])
      ensures start_at < CELLS && start_at + size < WORD ==>
                && r == (if size < CELLS - start_at then size else CELLS - start_at)
                && (forall i :: 0 <= i < r ==> video[start_at + i] == Cell(buffer[i], colour))
                && (forall i :: 0 <= i < CELLS && !(start_at <= i < start_at + r) ==> video[i] == old(video[i]))
    {
      var written := size;
      var start := start_at;
      if start_at > CELLS - 1 {
        return -1;
      }
      if (start_at + size) % WORD > CELLS {
        written := CELLS - start_at;
      }
      var j := 0;
      while start < (start_at + written) % WORD
        invariant start == start_at + j && 0 <= j && (j == 0 || start <= (start_at + written) % WORD)
        invariant forall i :: 0 <= i < j ==> video[start_at + i] == Cell(buffer[i], colour)
        invariant forall i :: 0 <= i < CELLS && !(start_at <= i < start) ==> video[i] == old(video[i])
        decreases (start_at + written) % WORD - start
      {
        video[start] := Cell(buffer[j], colour);
        start, j := start + 1, j + 1;
      }
      return written;
    }

    /** vga_scroll. */
    method Scroll()
      requires video.Length == CELLS
      modifies video
      ensures video[..] == Scrolled(old(video[..]), colour)
    {
      var i := 0;
      while i < (ROWS - 1) * COLS
        invariant 0 <= i <= (ROWS - 1) * COLS
        invariant forall k :: 0 <= k < i ==> video[k] == old(video[k + COLS])
        invariant forall k :: i <= k < CELLS ==> video[k] == old(video[k])
      {
        video[i] := video[i + COLS];
        i := i + 1;
      }
      i := (ROWS - 1) * COLS;
      while i < CELLS
        invariant (ROWS - 1) * COLS <= i <= CELLS
        invariant forall k :: 0 <= k < (ROWS - 1) * COLS ==> video[k] == old(video[k + COLS])
        invariant forall k :: (ROWS - 1) * COLS <= k < i ==> video[k] == Cell(SPACE, colour)
      {
        video[i] := Cell(SPACE, colour);
        i := i + 1;
      }
    }

    method WriteHere(c: Byte)
      requires Valid()
      modifies video
      ensures video[..] == old(video[..])[Location(x, y) := Cell(c, colour)]
    {
      var r := WriteCells(Location(x, y), 1, [c]);
      assert forall i :: 0 <= i < CELLS && i != Location(x, y) ==> video[i] == old(video[i]);
      assert [c][0] == c && video[Location(x, y) + 0] == Cell(c, colour);
    }

    method Checks()
      requires video.Length == CELLS && 0 <= y
      modifies this`x, this`y, video
      ensures Scr() == Settle(old(Scr()), colour)
    {
      if x > COLS - 1 {
        x := 0;
        y := y + 1;
      }
      if y > ROWS - 1 {
        Scroll();
        y := y - 1;
      }
    }

    method Backspace()
      requires Valid()
      modifies this`x, this`y, this`typed, video
      ensures Scr() == Back(old(Scr()), colour) && Valid()
    {
      if typed >= 1 {
        typed := typed - 1;
        if x > 0 {
          x := x - 1;
        } else if y > 0 {
          x := COLS - 1;
          y := y - 1;
        }
        WriteHere(SPACE);
      }
    }

    /** gtty_write_vga. A tab writes four spaces through the same function. */
    method WriteVga(buffer: seq<Byte>) returns (r: int)
      requires Valid()
      modifies this`x, this`y, this`typed, video
      ensures Valid()
      ensures pixels ==> r == -1 && Scr() == old(Scr())
      ensures !pixels ==> r == |buffer| && Scr() == PutAll(old(Scr()), buffer, colour)
      decreases TAB in buffer, |buffer|
    {
      if pixels {
        return -1;
      }
      ghost var before := Scr();
      var i := 0;
      while i < |buffer|
        invariant 0 <= i <= |buffer| && Valid()
        invariant PutAll(Scr(), buffer[i..], colour) == PutAll(before, buffer, colour)
      {
        ghost var s := Scr();
        var c := buffer[i];
        PutOk(s, c, colour);
        assert buffer[i..][1..] == buffer[i + 1..];
        if c == BACKSPACE {
          Backspace();
        } else if c == NEWLINE {
          x := 0;
          y := y + 1;
        } else if c == TAB {
          FourSpaces(buffer);
        } else if c == RETURN {
          x := 0;
        } else {
          WriteHere(c);
          x := x + 1;
        }
        Checks();
        assert Scr() == Put(s, c, colour);
        i := i + 1;
      }
      return |buffer|;
    }

    method FourSpaces(ghost buffer: seq<Byte>)
      requires Valid() && !pixels && TAB in buffer
      modifies this`x, this`y, this`typed, video
      ensures Valid() && Scr() == PutSpaces(old(Scr()), 4, colour)
      decreases TAB in buffer, |buffer|, 0
    {
      ghost var s := Scr();
      var r := WriteVga([SPACE]);
      r := WriteVga([SPACE]);
      r := WriteVga([SPACE]);
      r := WriteVga([SPACE]);
      FourPuts(s, colour);
    }
  }

  lemma OneSpace(s: Screen, colour: Byte)
    requires ScreenOk(s)
    ensures PutAll(s, [SPACE], colour) == PutPlain(s, SPACE, colour) && ScreenOk(PutPlain(s, SPACE, colour))
  {
    assert [SPACE][1..] == [];
  }

  lemma FourPuts(s: Screen, colour: Byte)
    requires ScreenOk(s)
    ensures var a := PutPlain(s, SPACE, colour);
            && ScreenOk(a) && PutAll(s, [SPACE], colour) == a
            && var b := PutPlain(a, SPACE, colour);
               && ScreenOk(b) && PutAll(a, [SPACE], colour) == b
               && var c := PutPlain(b, SPACE, colour);
                  && ScreenOk(c) && PutAll(b, [SPACE], colour) == c
                  && PutAll(c, [SPACE], colour) == PutSpaces(s, 4, colour)
  {
    OneSpace(s, colour);
    var a := PutPlain(s, SPACE, colour);
    OneSpace(a, colour);
    var b := PutPlain(a, SPACE, colour);
    OneSpace(b, colour);
    OneSpace(PutPlain(b, SPACE, colour), colour);
  }
}
