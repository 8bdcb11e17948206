// key_fingerprint_randomart: a worm crawls over a 17x9 field, two bits
// of the digest a step, and every cell it lands on counts the visit; the
// counters are then drawn with the augmentation characters inside a
// frame whose top line names the key type and size.
module RandomArt {
  import opened Wire
  import opened KeyTypes
  import opened Keys
  import opened Strings

  const FLDBASE: nat := 8
  const FLDSIZE_Y: nat := FLDBASE + 1
  const FLDSIZE_X: nat := FLDBASE * 2 + 1

  /** The characters drawn for 0, 1, 2, ... visits; the last two mark
      the start and the end of the walk. */
  const AUGMENTATION: string := " .o+=*BOX@%&#/^SE"

  /** strlen(augmentation_string) - 1: the index of 'E'. */
  const LEN: nat := |AUGMENTATION| - 1

  function Min(a: nat, b: nat): nat {
    if a < b then a else b
  }

  /** A move command: two bits. */
  type Cmd = c: nat | c < 4

  /** A cell of the field. */
  datatype Pos = Pos(x: nat, y: nat)

  predicate InField(p: Pos) {
    p.x < FLDSIZE_X && p.y < FLDSIZE_Y
  }

  /** The middle of the field, where the walk starts. */
  const START: Pos := Pos(FLDSIZE_X / 2, FLDSIZE_Y / 2)

  /** MAX(v, 0) then MIN(v, hi). */
  function Clamp(v: int, hi: nat): (r: nat)
    ensures r <= hi
    ensures 0 <= v <= hi ==> r == v
  {
    if v < 0 then 0 else if v > hi then hi else v
  }

  /** One move command, the low two bits of the input: bit 0 steps right
      (set) or left, bit 1 down (set) or up; a wall cancels that half
      of the move. */
  function Step(p: Pos, cmd: Cmd): (q: Pos)
    requires InField(p)
    ensures InField(q)
    ensures q.x == p.x <==> (cmd % 2 == 1 && p.x == FLDSIZE_X - 1) || (cmd % 2 == 0 && p.x == 0)
    ensures q.y == p.y <==> (cmd / 2 == 1 && p.y == FLDSIZE_Y - 1) || (cmd / 2 == 0 && p.y == 0)
    ensures q.x as int - p.x == (if q.x == p.x then 0 else if cmd % 2 == 1 then 1 else -1)
    ensures q.y as int - p.y == (if q.y == p.y then 0 else if cmd / 2 == 1 then 1 else -1)
  {
    var dx := if cmd % 2 == 1 then 1 else -1;
    var dy := if cmd / 2 == 1 then 1 else -1;
    Pos(Clamp(p.x + dx, FLDSIZE_X - 1), Clamp(p.y + dy, FLDSIZE_Y - 1))
  }

  /** The first n commands of a byte, lowest two bits first. */
  function Cmds(v: nat, n: nat): (r: seq<Cmd>)
    ensures |r| == n
  {
    if n == 0 then [] else [v % 4] + Cmds(v / 4, n - 1)
  }

  /** The move commands of a digest: four per byte, in order. */
  function Commands(d: seq<byte>): (r: seq<Cmd>)
    ensures |r| == 4 * |d|
  {
    if d == [] then [] else Commands(d[..|d| - 1]) + Cmds(d[|d| - 1], 4)
  }

  /** Where the walk is after the commands cs. */
  function Walk(cs: seq<Cmd>): (p: Pos)
    ensures InField(p)
  {
    if cs == [] then START else Step(Walk(cs[..|cs| - 1]), cs[|cs| - 1])
  }

  /** How many of the commands cs end on p. */
  function Visits(cs: seq<Cmd>, p: Pos): (n: nat)
    ensures n <= |cs|
  {
    if cs == [] then 0
    else Visits(cs[..|cs| - 1], p) + (if Walk(cs) == p then 1 else 0)
  }

  /** The counter of a cell once the walk is over: LEN at the end, LEN - 1
      at the start (the end wins when the two coincide), the visits
      capped at LEN - 2 elsewhere. */
  function Cell(cs: seq<Cmd>, p: Pos): (v: nat)
    ensures v <= LEN
  {
    if p == Walk(cs) then LEN
    else if p == START then LEN - 1
    else Min(Visits(cs, p), LEN - 2)
  }

  /** The character drawn for a counter. */
  function Symbol(v: nat): char {
    AUGMENTATION[Min(v, LEN)]
  }

  // ---------------------------------------------------------------
  // The walk, in place on the field.

  predicate Shaped(field: array2<nat>) {
    field.Length0 == FLDSIZE_X && field.Length1 == FLDSIZE_Y
  }

  /** The field holds the visits of the commands cs, capped at LEN - 2. */
  predicate Counted(field: array2<nat>, cs: seq<Cmd>)
    requires Shaped(field)
    reads field
  {
    forall a, b :: 0 <= a < FLDSIZE_X && 0 <= b < FLDSIZE_Y ==>
      field[a, b] == Min(Visits(cs, Pos(a, b)), LEN - 2)
  }

  /** One command: the move, then the counter of the new cell. */
  method Move(field: array2<nat>, x: nat, y: nat, input: nat, ghost cs: seq<Cmd>) returns (x': nat, y': nat)
    requires Shaped(field)
    requires Counted(field, cs) && Pos(x, y) == Walk(cs)
    modifies field
    ensures Counted(field, cs + [input % 4]) && Pos(x', y') == Walk(cs + [input % 4])
  {
    x', y' := Advance(x, y, input);
    WalkSnoc(cs, input % 4);
    Augment(field, x', y', cs, input % 4);
  }

  /** The two halves of the move, each clamped to the field. */
  method Advance(x: nat, y: nat, input: nat) returns (x': nat, y': nat)
    requires InField(Pos(x, y))
    ensures Pos(x', y') == Step(Pos(x, y), input % 4)
  {
    CommandBits(input);
    var nx: int := x + (if input % 2 == 1 then 1 else -1);
    var ny: int := y + (if (input / 2) % 2 == 1 then 1 else -1);
    nx := if nx < 0 then 0 else nx;
    ny := if ny < 0 then 0 else ny;
    nx := if nx > FLDSIZE_X - 1 then FLDSIZE_X - 1 else nx;
    ny := if ny > FLDSIZE_Y - 1 then FLDSIZE_Y - 1 else ny;
    x', y' := nx, ny;
  }

  /** The counter of the cell the walk has reached goes up unless it is
      already at LEN - 2. */
  method Augment(field: array2<nat>, x: nat, y: nat, ghost cs: seq<Cmd>, ghost c: Cmd)
    requires Shaped(field) && Counted(field, cs) && Pos(x, y) == Walk(cs + [c])
    modifies field
    ensures Counted(field, cs + [c])
  {
    if field[x, y] < LEN - 2 {
      field[x, y] := field[x, y] + 1;
    }
    forall a, b | 0 <= a < FLDSIZE_X && 0 <= b < FLDSIZE_Y
      ensures field[a, b] == Min(Visits(cs + [c], Pos(a, b)), LEN - 2)
    {
      VisitsSnoc(cs, c, Pos(a, b));
    }
  }

  /** input & 0x1 and input & 0x2 are the two bits of the command. */
  lemma CommandBits(input: nat)
    ensures input % 2 == (input % 4) % 2
    ensures (input / 2) % 2 == (input % 4) / 2
  {
    var q := input / 4;
    assert input == 4 * q + input % 4;
    assert input / 2 == 2 * q + (input % 4) / 2;
  }

  lemma WalkSnoc(cs: seq<Cmd>, c: Cmd)
    ensures Walk(cs + [c]) == Step(Walk(cs), c)
  {
    assert (cs + [c])[..|cs|] == cs;
  }

  lemma VisitsSnoc(cs: seq<Cmd>, c: Cmd, p: Pos)
    ensures Visits(cs + [c], p) == Visits(cs, p) + (if Walk(cs + [c]) == p then 1 else 0)
  {
    assert (cs + [c])[..|cs|] == cs;
  }

  /** The outer loop of the walk, a byte at a time. */
  method Crawl(field: array2<nat>, d: seq<byte>) returns (x: nat, y: nat)
    requires Shaped(field) && Counted(field, [])
    modifies field
    ensures Counted(field, Commands(d)) && Pos(x, y) == Walk(Commands(d))
  {
    x, y := FLDSIZE_X / 2, FLDSIZE_Y / 2;
    for i := 0 to |d|
      invariant Counted(field, Commands(d[..i])) && Pos(x, y) == Walk(Commands(d[..i]))
    {
      x, y := CrawlByte(field, x, y, d[i], Commands(d[..i]));
      CommandsSnoc(d, i);
    }
    assert d[..|d|] == d;
  }

  lemma CommandsSnoc(d: seq<byte>, i: nat)
    requires i < |d|
    ensures Commands(d[..i + 1]) == Commands(d[..i]) + Cmds(d[i], 4)
  {
    assert d[..i + 1][..i] == d[..i];
  }

  /** The inner loop: four commands of one byte, the input shifted right
      by two bits after each. */
  method CrawlByte(field: array2<nat>, x: nat, y: nat, v: byte, ghost cs: seq<Cmd>) returns (x': nat, y': nat)
    requires Shaped(field) && Counted(field, cs) && Pos(x, y) == Walk(cs)
    modifies field
    ensures Counted(field, cs + Cmds(v, 4)) && Pos(x', y') == Walk(cs + Cmds(v, 4))
  {
    x', y' := x, y;
    var input: nat := v;
    ghost var done: seq<Cmd> := cs;
    for b := 0 to 4
      invariant cs + Cmds(v, 4) == done + Cmds(input, 4 - b)
      invariant Counted(field, done) && Pos(x', y') == Walk(done)
    {
      ghost var c: Cmd := input % 4;
      ghost var rest := Cmds(input / 4, 4 - b - 1);
      assert Cmds(input, 4 - b) == [c] + rest;
      x', y' := Move(field, x', y', input, done);
      ConcatAssoc(done, [c], rest);
      assert (done + [c]) + rest == cs + Cmds(v, 4);
      done := done + [c];
      input := input / 4;
      assert Cmds(input, 4 - (b + 1)) == rest;
    }
    assert done + Cmds(input, 0) == done;
  }

  // ---------------------------------------------------------------
  // The picture.

  /** The field after the marks: every cell holds its Cell counter. */
  predicate Marked(field: array2<nat>, cs: seq<Cmd>)
    requires Shaped(field)
    reads field
  {
    forall a, b :: 0 <= a < FLDSIZE_X && 0 <= b < FLDSIZE_Y ==> field[a, b] == Cell(cs, Pos(a, b))
  }

  /** Mark the starting point with LEN - 1, then the end point with LEN. */
  method Mark(field: array2<nat>, x: nat, y: nat, ghost cs: seq<Cmd>)
    requires Shaped(field) && Counted(field, cs) && Pos(x, y) == Walk(cs)
    modifies field
    ensures Marked(field, cs)
  {
    field[FLDSIZE_X / 2, FLDSIZE_Y / 2] := LEN - 1;
    field[x, y] := LEN;
  }

  /** A width: the string right-justified in at least w characters. */
  function PadLeft(s: string, w: nat): (r: string)
    ensures |r| == if |s| < w then w else |s|
  {
    if |s| < w then seq(w - |s|, _ => ' ') + s else s
  }

  /** "+--[%4s %4u]" of the key's short name and size. */
  function Header(name: string, size: nat): string {
    "+--[" + PadLeft(name, 4) + " " + PadLeft(Decimal(size), 4) + "]"
  }

  /** snprintf into n + 1 bytes keeps the first n characters. */
  function Truncate(s: string, n: nat): (r: string)
    ensures |r| == if |s| <= n then |s| else n
    ensures r == s[..|r|]
  {
    if |s| <= n then s else s[..n]
  }

  function Dashes(n: nat): (r: string)
    ensures |r| == n
  {
    seq(n, _ => '-')
  }

  /** The upper border: the header as snprintf keeps it, '-' up to
      FLDSIZE_X + 1 characters, '+', newline. */
  function TopLine(name: string, size: nat): (r: string)
    ensures |r| == FLDSIZE_X + 3
  {
    var h := Truncate(Header(name, size), FLDSIZE_X - 1);
    h + Dashes(FLDSIZE_X + 1 - |h|) + "+\n"
  }

  /** The symbols of the first n cells of row y. */
  function RowCells(cs: seq<Cmd>, y: nat, n: nat): (r: string)
    ensures |r| == n
  {
    if n == 0 then [] else RowCells(cs, y, n - 1) + [Symbol(Cell(cs, Pos(n - 1, y)))]
  }

  /** Row y of the field between two '|', and a newline. */
  function RowLine(cs: seq<Cmd>, y: nat): (r: string)
    ensures |r| == FLDSIZE_X + 3
  {
    "|" + RowCells(cs, y, FLDSIZE_X) + "|\n"
  }

  /** The first n rows, of FLDSIZE_X + 3 = 20 characters each. */
  function Rows(cs: seq<Cmd>, n: nat): (r: string)
    ensures |r| == 20 * n
  {
    if n == 0 then [] else Rows(cs, n - 1) + RowLine(cs, n - 1)
  }

  /** The lower border, without a newline. */
  function BottomLine(): (r: string)
    ensures |r| == FLDSIZE_X + 2
  {
    "+" + Dashes(FLDSIZE_X) + "+"
  }

  /** The picture of a digest under a key's short name and size. */
  function Art(d: seq<byte>, name: string, size: nat): string {
    TopLine(name, size) + Rows(Commands(d), FLDSIZE_Y) + BottomLine()
  }

  /** key_fingerprint_randomart: the walk on a zeroed field, the marks,
      and the picture written through p into a zeroed buffer of
      (FLDSIZE_X + 3) * (FLDSIZE_Y + 2) characters. The result is the
      string up to the NUL the buffer ends with. */
  method FingerprintRandomart(d: seq<byte>, k: Key) returns (s: string)
    requires HasAlgStruct(k)
    ensures s == Art(d, ShortName(k.kind), KeySize(k) % TWO32)
  {
    var field := new nat[FLDSIZE_X, FLDSIZE_Y]((_, _) => 0);
    var x, y := Crawl(field, d);
    Mark(field, x, y, Commands(d));
    s := Draw(field, ShortName(k.kind), KeySize(k) % TWO32, Commands(d));
  }

  /** Filling in retval from the marked field. */
  method Draw(field: array2<nat>, name: string, size: nat, ghost cs: seq<Cmd>) returns (s: string)
    requires Shaped(field) && Marked(field, cs)
    ensures s == TopLine(name, size) + Rows(cs, FLDSIZE_Y) + BottomLine()
  {
    var retval := new char[(FLDSIZE_X + 3) * (FLDSIZE_Y + 2)](_ => '\0');
    var p := PutTop(retval, name, size);
    p := PutContent(retval, p, field, cs);
    s := retval[..p];
  }

  /** The rows of the field and the lower border, after the upper one. */
  method PutContent(retval: array<char>, p: nat, field: array2<nat>, ghost cs: seq<Cmd>) returns (p': nat)
    requires Shaped(field) && Marked(field, cs)
    requires p == 20 && retval.Length == 220
    modifies retval
    ensures p' == 219 && retval[..p'] == old(retval[..p]) + Rows(cs, FLDSIZE_Y) + BottomLine()
  {
    ghost var top := retval[..p];
    p' := p;
    for row := 0 to FLDSIZE_Y
      invariant p' == 20 * row + 20
      invariant retval[..p'] == top + Rows(cs, row)
    {
      ghost var line := RowLine(cs, row);
      ghost var rows := Rows(cs, row);
      p' := PutRow(retval, p', field, row, cs);
      ConcatAssoc(top, rows, line);
      assert Rows(cs, row + 1) == rows + line;
    }
    p' := PutBottom(retval, p');
  }

  /** snprintf of the header, then '-' for i from the header's length
      minus one up to FLDSIZE_X - 1, '+' and a newline. */
  method PutTop(retval: array<char>, name: string, size: nat) returns (p: nat)
    requires retval.Length == (FLDSIZE_X + 3) * (FLDSIZE_Y + 2)
    modifies retval
    ensures p == FLDSIZE_X + 3 && retval[..p] == TopLine(name, size)
  {
    var h := Truncate(Header(name, size), FLDSIZE_X - 1);
    for i := 0 to |h|
      invariant retval[..i] == h[..i]
    {
      retval[i] := h[i];
    }
    p := |h|;
    var i: nat := p - 1;
    while i < FLDSIZE_X
      invariant p == i + 1 <= FLDSIZE_X + 1
      invariant retval[..p] == h + Dashes(p - |h|)
    {
      retval[p] := '-';
      p := p + 1;
      i := i + 1;
    }
    retval[p] := '+';
    retval[p + 1] := '\n';
    p := p + 2;
  }

  /** '|', the symbols of row y, '|' and a newline. */
  method PutRow(retval: array<char>, p: nat, field: array2<nat>, y: nat, ghost cs: seq<Cmd>) returns (p': nat)
    requires Shaped(field) && Marked(field, cs) && y < FLDSIZE_Y
    requires p + FLDSIZE_X + 3 <= retval.Length
    modifies retval
    ensures p' == p + FLDSIZE_X + 3 && retval[..p'] == old(retval[..p]) + RowLine(cs, y)
  {
    ghost var before := retval[..p];
    retval[p] := '|';
    p' := p + 1;
    for x := 0 to FLDSIZE_X
      invariant p' == p + 1 + x
      invariant retval[..p'] == before + "|" + RowCells(cs, y, x)
    {
      retval[p'] := AUGMENTATION[Min(field[x, y], LEN)];
      p' := p' + 1;
    }
    retval[p'] := '|';
    retval[p' + 1] := '\n';
    p' := p' + 2;
  }

  /** '+', FLDSIZE_X times '-', '+'. */
  method PutBottom(retval: array<char>, p: nat) returns (p': nat)
    requires p + FLDSIZE_X + 2 <= retval.Length
    modifies retval
    ensures p' == p + FLDSIZE_X + 2 && retval[..p'] == old(retval[..p]) + BottomLine()
  {
    ghost var before := retval[..p];
    retval[p] := '+';
    p' := p + 1;
    for i := 0 to FLDSIZE_X
      invariant p' == p + 1 + i
      invariant retval[..p'] == before + "+" + Dashes(i)
    {
      retval[p'] := '-';
      p' := p' + 1;
    }
    retval[p'] := '+';
    p' := p' + 1;
  }

  // ---------------------------------------------------------------
  // What the picture shows.

  /** The characters of row y are the symbols of its cells in order. */
  lemma {:induction false} RowCellsAt(cs: seq<Cmd>, y: nat, n: nat, x: nat)
    requires x < n
    ensures RowCells(cs, y, n)[x] == Symbol(Cell(cs, Pos(x, y)))
  {
    if x < n - 1 {
      RowCellsAt(cs, y, n - 1, x);
    }
  }

  /** Line y of the rows is RowLine(cs, y). */
  lemma {:induction false} RowsAt(cs: seq<Cmd>, n: nat, y: nat, i: nat)
    requires y < n && i < 20
    ensures Rows(cs, n)[20 * y + i] == RowLine(cs, y)[i]
  {
    var prefix := Rows(cs, n - 1);
    assert Rows(cs, n) == prefix + RowLine(cs, n - 1);
    if y < n - 1 {
      RowsAt(cs, n - 1, y, i);
      assert 20 * y + i < |prefix|;
    } else {
      assert 20 * y + i == |prefix| + i;
    }
  }

  /** Cell (x, y) of the field is drawn at column x + 1 of line y + 1
      of the picture, lines being FLDSIZE_X + 2 characters and a
      newline. */
  lemma ArtCell(d: seq<byte>, name: string, size: nat, x: nat, y: nat)
    requires x < FLDSIZE_X && y < FLDSIZE_Y
    ensures |Art(d, name, size)| == 219
    ensures Art(d, name, size)[20 * (y + 1) + 1 + x] == Symbol(Cell(Commands(d), Pos(x, y)))
  {
    var cs := Commands(d);
    RowsAt(cs, FLDSIZE_Y, y, 1 + x);
    assert Art(d, name, size)[20 * (y + 1) + 1 + x] == Rows(cs, FLDSIZE_Y)[20 * y + 1 + x];
    RowCellsAt(cs, y, FLDSIZE_X, x);
    assert RowLine(cs, y)[1 + x] == RowCells(cs, y, FLDSIZE_X)[x];
  }

  /** The frame: eleven lines of FLDSIZE_X + 2 characters joined by
      newlines, the rows between '|' and '|', and the lower border '+',
      FLDSIZE_X dashes, '+'. */
  lemma ArtFrame(d: seq<byte>, name: string, size: nat, l: nat)
    requires l < FLDSIZE_Y + 2
    ensures |Art(d, name, size)| == 219
    ensures l < FLDSIZE_Y + 1 ==> Art(d, name, size)[20 * l + 19] == '\n'
    ensures 1 <= l <= FLDSIZE_Y ==> Art(d, name, size)[20 * l] == '|' && Art(d, name, size)[20 * l + 18] == '|'
    ensures l == 0 ==> Art(d, name, size)[18] == '+'
    ensures l == FLDSIZE_Y + 1 ==> (Art(d, name, size)[200] == '+' && Art(d, name, size)[218] == '+' &&
      forall i :: 201 <= i < 218 ==> Art(d, name, size)[i] == '-')
  {
    var cs := Commands(d);
    var a := Art(d, name, size);
    var top := TopLine(name, size);
    if 1 <= l <= FLDSIZE_Y {
      RowsAt(cs, FLDSIZE_Y, l - 1, 0);
      RowsAt(cs, FLDSIZE_Y, l - 1, 18);
      RowsAt(cs, FLDSIZE_Y, l - 1, 19);
      assert a[20 * l] == Rows(cs, FLDSIZE_Y)[20 * (l - 1)];
    } else if l == FLDSIZE_Y + 1 {
      assert a[200..] == BottomLine();
    }
  }

  /** The counter values by their character: 'E' is LEN, 'S' is LEN - 1,
      ' ' is 0. */
  lemma SymbolOf(v: nat)
    requires v <= LEN
    ensures Symbol(v) == 'E' <==> v == LEN
    ensures Symbol(v) == 'S' <==> v == LEN - 1
    ensures Symbol(v) == ' ' <==> v == 0
  {
  }

  /** The end of the walk shows 'E' and no other cell does; the start
      shows 'S' unless the walk ends there; any other cell shows its
      visits capped at LEN - 2, blank exactly when never visited. */
  lemma CellSymbols(cs: seq<Cmd>, p: Pos)
    ensures Symbol(Cell(cs, p)) == 'E' <==> p == Walk(cs)
    ensures Symbol(Cell(cs, p)) == 'S' <==> p == START && p != Walk(cs)
    ensures p != Walk(cs) && p != START ==>
      Symbol(Cell(cs, p)) == AUGMENTATION[Min(Visits(cs, p), LEN - 2)] &&
      (Symbol(Cell(cs, p)) == ' ' <==> Visits(cs, p) == 0)
  {
    SymbolOf(Cell(cs, p));
  }

  /** In the picture: exactly one cell shows 'E', the one where the walk
      of the digest ends. */
  lemma ArtEnd(d: seq<byte>, name: string, size: nat, x: nat, y: nat)
    requires x < FLDSIZE_X && y < FLDSIZE_Y
    ensures |Art(d, name, size)| == 219
    ensures Art(d, name, size)[20 * (y + 1) + 1 + x] == 'E' <==> Pos(x, y) == Walk(Commands(d))
    ensures Art(d, name, size)[20 * (y + 1) + 1 + x] == 'S' <==> Pos(x, y) == START != Walk(Commands(d))
  {
    ArtCell(d, name, size, x, y);
    CellSymbols(Commands(d), Pos(x, y));
  }

  /** A short name of at most four characters and a size below 10000
      leave the whole header, fourteen characters, and four dashes. */
  lemma HeaderFits(name: string, size: nat)
    requires |name| <= 4 && size < 10000
    ensures |Header(name, size)| == 14
    ensures TopLine(name, size) == Header(name, size) + "----+\n"
  {
    assert Pow10(4) == 10000;
    DecimalWidth(size, 4, 10000);
  }

  /** snprintf cuts a longer header: for an Ed25519 key of 256 bits
      the closing ']' is lost and the dashes follow the size directly. */
  lemma Ed25519Header()
    ensures TopLine("ED25519", 256) == "+--[ED25519  256--+\n"
  {
    assert Decimal(256) == "256" by {
      assert Decimal(25) == "25";
    }
    assert Header("ED25519", 256) == "+--[ED25519  256]";
  }
}
