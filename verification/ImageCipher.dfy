/** What the image engine computes, said without its registers: which memory
    words each phase moves and where.  The engine itself (ImageEngine.dfy) is
    proved to compute these functions one clock edge at a time. */
module ImageCipher {

  const WIDTH: nat := 640
  const HEIGHT: nat := 480
  const PIXELS: nat := 307200
  /** The SRAM has a 20-bit address. */
  const SRAM_WORDS: nat := 0x10_0000

  type Sram = m: seq<bv16> | |m| == SRAM_WORDS witness seq(SRAM_WORDS, _ => 0)

  /** An 80-bit key; element `b` is bit `b`. */
  type Key = k: seq<bool> | |k| == 80 witness seq(80, _ => false)

  // ------------------------------------------------------------------
  // Lines: a rotation pass works on rows or on columns, forwards or mirrored
  // ------------------------------------------------------------------

  datatype Axis = Rows | Columns

  /** Encryption uses the two unmirrored passes, decryption the two mirrored ones. */
  datatype Pass = Pass(axis: Axis, mirrored: bool) {
    function Length(): nat { if axis.Rows? then WIDTH else HEIGHT }
    function Blocks(): nat { if axis.Rows? then 60 else 80 }
    function Lines(): nat { 8 * Blocks() }
  }

  /** The address expression of a pass before it is cut to 20 bits: position
      `i` of line `n`.  Positions past the end are fetched but never used. */
  function RawCell(p: Pass, n: nat, i: nat): int {
    match p
    case Pass(Rows, false) => 640 * n + i
    case Pass(Rows, true) => 640 * (n + 1) - 1 - i
    case Pass(Columns, false) => 640 * i + n
    case Pass(Columns, true) => 640 * (479 - i) + n
  }

  function Wrap20(a: int): (w: nat)
    ensures w < SRAM_WORDS
    ensures 0 <= a < SRAM_WORDS ==> w == a
  {
    a % SRAM_WORDS
  }

  function Cell(p: Pass, n: nat, i: nat): (a: nat)
    requires n < p.Lines() && i < p.Length()
    ensures a < PIXELS
    ensures LineOf(p, a) == n && PositionOf(p, a) == i
    ensures Wrap20(RawCell(p, n, i)) == a
  {
    var a := RawCell(p, n, i);
    if p.axis.Rows? then
      var x := if p.mirrored then 639 - i else i;
      assert a == 640 * n + x;
      DivMod640(n, x);
      a
    else
      var y := if p.mirrored then 479 - i else i;
      assert a == 640 * y + n;
      DivMod640(y, n);
      a
  }

  lemma DivMod640(y: nat, x: nat)
    requires x < 640
    ensures (640 * y + x) / 640 == y
    ensures (640 * y + x) % 640 == x
  {
  }

  function LineOf(p: Pass, a: nat): nat {
    if p.axis.Rows? then a / WIDTH else a % WIDTH
  }

  function PositionOf(p: Pass, a: nat): int {
    match p
    case Pass(Rows, false) => a % WIDTH
    case Pass(Rows, true) => 639 - a % WIDTH
    case Pass(Columns, false) => a / WIDTH
    case Pass(Columns, true) => 479 - a / WIDTH
  }

  /** Every pixel is on exactly one line of a pass, at exactly one position. */
  lemma CellOfAddress(p: Pass, a: nat)
    requires a < PIXELS
    ensures LineOf(p, a) < p.Lines() && 0 <= PositionOf(p, a) < p.Length()
    ensures Cell(p, LineOf(p, a), PositionOf(p, a)) == a
  {
  }

  // ------------------------------------------------------------------
  // Which lines a key selects
  // ------------------------------------------------------------------

  /** Some key bit below `b` is set. */
  predicate SomeBefore(key: Key, b: nat)
    requires b <= 80
  {
    exists c :: 0 <= c < b && key[c]
  }

  /** Block `b` of eight lines starts on its own first line until a block has
      been selected, and one line earlier ever after. */
  function BlockStart(key: Key, b: nat): (n: nat)
    requires b <= 80
    ensures n == 8 * b || n == 8 * b - 1
  {
    if SomeBefore(key, b) then 8 * b - 1 else 8 * b
  }

  /** The lines that are rotated: a line belongs to the block that its
      successor's number names, except that the line before the first selected
      block stays out.  The last line of all never belongs to any block. */
  predicate Selected(p: Pass, key: Key, n: nat) {
    var b := (n + 1) / 8;
    b < p.Blocks() && key[b] && (n + 1 == 8 * b ==> SomeBefore(key, b))
  }

  lemma LastLineNeverSelected(p: Pass, key: Key, n: nat)
    requires n + 1 >= p.Lines()
    ensures !Selected(p, key, n)
  {
  }

  /** What the block counter walks over is what `Selected` says. */
  lemma SelectedInBlock(p: Pass, key: Key, b: nat, n: nat)
    requires b < p.Blocks() && BlockStart(key, b) <= n <= 8 * b + 6
    ensures Selected(p, key, n) <==> key[b]
  {
    if n == 8 * b - 1 {
      assert (n + 1) / 8 == b;
    } else {
      assert 8 * b <= n + 1 < 8 * b + 8;
    }
  }

  lemma NextBlockStart(key: Key, b: nat)
    requires b < 80
    ensures BlockStart(key, b + 1) == if key[b] then 8 * b + 7 else BlockStart(key, b) + 8
  {
    if key[b] {
      assert SomeBefore(key, b + 1);
    } else if SomeBefore(key, b) {
      var c :| 0 <= c < b && key[c];
      assert c < b + 1 && key[c];
    }
  }

  // ------------------------------------------------------------------
  // Rotation
  // ------------------------------------------------------------------

  /** The image `m` after the selected lines below `n`, and the first `i`
      positions of line `n`, have been rotated by eight. */
  function RotatedTo(m: Sram, p: Pass, key: Key, n: nat, i: nat): (r: Sram)
    requires n <= p.Lines() && i <= p.Length()
  {
    seq(SRAM_WORDS, a requires 0 <= a < SRAM_WORDS => RotatedWord(m, p, key, n, i, a))
  }

  function RotatedWord(m: Sram, p: Pass, key: Key, n: nat, i: nat, a: nat): bv16
    requires a < SRAM_WORDS
  {
    if a < PIXELS && Moved(p, key, n, i, a) then
      CellOfAddress(p, a);
      m[Cell(p, LineOf(p, a), (PositionOf(p, a) + 8) % p.Length())]
    else
      m[a]
  }

  predicate Moved(p: Pass, key: Key, n: nat, i: nat, a: nat) {
    || (LineOf(p, a) < n && Selected(p, key, LineOf(p, a)))
    || (LineOf(p, a) == n && PositionOf(p, a) < i)
  }

  /** A whole pass: every selected line rotated by eight, towards position zero. */
  function Rotate(m: Sram, p: Pass, key: Key): Sram {
    RotatedTo(m, p, key, p.Lines(), 0)
  }

  lemma RotatedNone(m: Sram, p: Pass, key: Key)
    ensures RotatedTo(m, p, key, 0, 0) == m
  {
    forall a | 0 <= a < SRAM_WORDS ensures RotatedWord(m, p, key, 0, 0, a) == m[a] {
      if a < PIXELS { CellOfAddress(p, a); }
    }
  }

  /** One word more. */
  lemma RotatedOneMore(m: Sram, p: Pass, key: Key, n: nat, i: nat)
    requires n < p.Lines() && i < p.Length()
    ensures RotatedTo(m, p, key, n, i + 1)
         == RotatedTo(m, p, key, n, i)[Cell(p, n, i) := m[Cell(p, n, (i + 8) % p.Length())]]
  {
    var c := Cell(p, n, i);
    forall a | 0 <= a < SRAM_WORDS
      ensures RotatedWord(m, p, key, n, i + 1, a)
           == if a == c then m[Cell(p, n, (i + 8) % p.Length())] else RotatedWord(m, p, key, n, i, a)
    {
      if a < PIXELS { CellOfAddress(p, a); }
    }
  }

  /** What has not been reached yet can still be read. */
  lemma RotatedAhead(m: Sram, p: Pass, key: Key, n: nat, i: nat, j: nat)
    requires n < p.Lines() && i <= j < p.Length()
    ensures RotatedTo(m, p, key, n, i)[Cell(p, n, j)] == m[Cell(p, n, j)]
  {
  }

  lemma RotatedLineDone(m: Sram, p: Pass, key: Key, n: nat)
    requires n < p.Lines() && Selected(p, key, n)
    ensures RotatedTo(m, p, key, n, p.Length()) == RotatedTo(m, p, key, n + 1, 0)
  {
    forall a | 0 <= a < SRAM_WORDS
      ensures RotatedWord(m, p, key, n, p.Length(), a) == RotatedWord(m, p, key, n + 1, 0, a)
    {
      if a < PIXELS { CellOfAddress(p, a); }
    }
  }

  lemma RotatedSkip(m: Sram, p: Pass, key: Key, n: nat, n': nat)
    requires n <= n' <= p.Lines()
    requires forall l :: n <= l < n' ==> !Selected(p, key, l)
    ensures RotatedTo(m, p, key, n, 0) == RotatedTo(m, p, key, n', 0)
  {
    forall a | 0 <= a < SRAM_WORDS
      ensures RotatedWord(m, p, key, n, 0, a) == RotatedWord(m, p, key, n', 0, a)
    {
      if a < PIXELS { CellOfAddress(p, a); }
    }
  }

  /** The mirrored pass undoes the unmirrored one. */
  lemma MirroredRotationUndoes(m: Sram, axis: Axis, key: Key)
    ensures Rotate(Rotate(m, Pass(axis, false), key), Pass(axis, true), key) == m
  {
    var f, g := Pass(axis, false), Pass(axis, true);
    var r := Rotate(m, f, key);
    hide Rotate;
    forall a | 0 <= a < SRAM_WORDS ensures Rotate(r, g, key)[a] == m[a] {
      MirroredWord(m, axis, key, a);
    }
    assert |Rotate(r, g, key)| == |m|;
  }

  lemma MirroredWord(m: Sram, axis: Axis, key: Key, a: nat)
    requires a < SRAM_WORDS
    ensures Rotate(Rotate(m, Pass(axis, false), key), Pass(axis, true), key)[a] == m[a]
  {
    var f, g := Pass(axis, false), Pass(axis, true);
    var r := Rotate(m, f, key);
    if a < PIXELS && Selected(f, key, LineOf(f, a)) {
      MirroredSelected(m, axis, key, a);
    } else {
      if a < PIXELS {
        MirroredPosition(axis, a);
      }
      RotatedElsewhere(r, g, key, a);
      RotatedElsewhere(m, f, key, a);
    }
    hide Rotate;
  }

  lemma MirroredSelected(m: Sram, axis: Axis, key: Key, a: nat)
    requires a < PIXELS && Selected(Pass(axis, false), key, LineOf(Pass(axis, false), a))
    ensures Rotate(Rotate(m, Pass(axis, false), key), Pass(axis, true), key)[a] == m[a]
  {
    var f, g := Pass(axis, false), Pass(axis, true);
    var r := Rotate(m, f, key);
    MirroredPosition(axis, a);
    MirroredSelection(axis, key, LineOf(f, a));
    hide Rotate, Selected;
    CellOfAddress(f, a);
    RotatedSelected(r, g, key, a);
    var from := Cell(g, LineOf(g, a), (PositionOf(g, a) + 8) % g.Length());
    MirroredPosition(axis, from);
    BackAndForth(f.Length(), PositionOf(g, a));
    hide LineOf, PositionOf;
    RotatedSelected(m, f, key, from);
  }

  lemma MirroredSelection(axis: Axis, key: Key, n: nat)
    ensures Selected(Pass(axis, true), key, n) <==> Selected(Pass(axis, false), key, n)
  {
  }

  lemma MirroredPosition(axis: Axis, a: nat)
    ensures LineOf(Pass(axis, true), a) == LineOf(Pass(axis, false), a)
    ensures PositionOf(Pass(axis, true), a) == Pass(axis, true).Length() - 1 - PositionOf(Pass(axis, false), a)
  {
  }

  lemma BackAndForth(length: nat, j: nat)
    requires 8 <= length && j < length
    ensures (length - 1 - (j + 8) % length + 8) % length == length - 1 - j
  {
    Reduced(j + 8, length);
    Reduced(if j + 8 < length then length - 1 - j else 2 * length - 1 - j, length);
  }

  lemma Reduced(i: nat, length: nat)
    requires 0 < length && i < 2 * length
    ensures i % length == if i < length then i else i - length
  {
  }

  lemma RotatedElsewhere(m: Sram, p: Pass, key: Key, a: nat)
    requires a < SRAM_WORDS && (a < PIXELS ==> !Selected(p, key, LineOf(p, a)))
    ensures Rotate(m, p, key)[a] == m[a]
  {
    if a < PIXELS {
      CellOfAddress(p, a);
    }
  }

  lemma RotatedSelected(m: Sram, p: Pass, key: Key, a: nat)
    requires a < PIXELS && Selected(p, key, LineOf(p, a))
    ensures LineOf(p, a) < p.Lines() && 0 <= PositionOf(p, a) < p.Length()
    ensures Rotate(m, p, key)[a] == m[Cell(p, LineOf(p, a), (PositionOf(p, a) + 8) % p.Length())]
  {
    CellOfAddress(p, a);
  }

  // ------------------------------------------------------------------
  // Quadrant swap
  // ------------------------------------------------------------------

  /** The upper-left corner of the quadrant that is exchanged and the offset
      of its partner, as key bits 24 and 48 choose them. */
  datatype Quadrants = Quadrants(x: nat, y: nat, dx: nat, dy: nat)

  function Quadrant(key: Key): Quadrants {
    match (key[24], key[48])
    case (false, false) => Quadrants(0, 0, 320, 0)
    case (false, true) => Quadrants(0, 0, 0, 240)
    case (true, false) => Quadrants(0, 240, 320, 0)
    case (true, true) => Quadrants(320, 0, 0, 240)
  }

  const QUADRANT_WORDS: nat := 76800

  /** The place of (`x`, `y`) in the raster order of the quadrant with corner
      (`q.x`, `q.y`), if it is in it. */
  predicate InQuadrant(x0: nat, y0: nat, x: nat, y: nat) {
    x0 <= x < x0 + 320 && y0 <= y < y0 + 240
  }

  function RankIn(x0: nat, y0: nat, x: nat, y: nat): int {
    320 * (y - y0) + (x - x0)
  }

  function PartnerOffset(q: Quadrants): nat { 640 * q.dy + q.dx }

  function MixedWord(m: Sram, key: Key, k: nat, a: nat): bv16
    requires a < SRAM_WORDS
  {
    var q := Quadrant(key);
    var x, y := a % 640, a / 640;
    if InQuadrant(q.x, q.y, x, y) && RankIn(q.x, q.y, x, y) < k then
      m[a + PartnerOffset(q)]
    else if InQuadrant(q.x + q.dx, q.y + q.dy, x, y) && RankIn(q.x + q.dx, q.y + q.dy, x, y) < k then
      m[a - PartnerOffset(q)]
    else
      m[a]
  }

  /** The image after the first `k` words of the quadrant have changed places
      with their partners. */
  function MixedTo(m: Sram, key: Key, k: nat): Sram {
    seq(SRAM_WORDS, a requires 0 <= a < SRAM_WORDS => MixedWord(m, key, k, a))
  }

  function Mix(m: Sram, key: Key): Sram {
    MixedTo(m, key, QUADRANT_WORDS)
  }

  lemma PartnerInside(key: Key, x: nat, y: nat)
    requires InQuadrant(Quadrant(key).x, Quadrant(key).y, x, y)
    ensures 640 * y + x + PartnerOffset(Quadrant(key)) < PIXELS
  {
  }

  lemma PartnerPlace(key: Key, x: nat, y: nat)
    requires InQuadrant(Quadrant(key).x, Quadrant(key).y, x, y)
    ensures var q := Quadrant(key);
            var c := 640 * y + x + PartnerOffset(q);
            && c < PIXELS && c % 640 == x + q.dx && c / 640 == y + q.dy
            && InQuadrant(q.x + q.dx, q.y + q.dy, c % 640, c / 640)
            && !InQuadrant(q.x, q.y, c % 640, c / 640)
            && !InQuadrant(q.x + q.dx, q.y + q.dy, x, y)
  {
    var q := Quadrant(key);
    assert 640 * y + x + PartnerOffset(q) == 640 * (y + q.dy) + (x + q.dx);
    DivMod640(y + q.dy, x + q.dx);
  }

  lemma PlaceOfPartner(key: Key, x: nat, y: nat)
    requires var q := Quadrant(key); InQuadrant(q.x + q.dx, q.y + q.dy, x, y)
    ensures var q := Quadrant(key);
            var c := 640 * y + x - PartnerOffset(q);
            && 0 <= c < PIXELS && c % 640 == x - q.dx && c / 640 == y - q.dy
            && InQuadrant(q.x, q.y, c % 640, c / 640)
            && !InQuadrant(q.x, q.y, x, y)
  {
    var q := Quadrant(key);
    assert 640 * y + x - PartnerOffset(q) == 640 * (y - q.dy) + (x - q.dx);
    DivMod640(y - q.dy, x - q.dx);
  }

  lemma SameRank(x0: nat, y0: nat, x: nat, y: nat, x': nat, y': nat)
    requires InQuadrant(x0, y0, x, y) && InQuadrant(x0, y0, x', y')
    requires RankIn(x0, y0, x, y) == RankIn(x0, y0, x', y')
    ensures x == x' && y == y'
  {
  }

  lemma MixedOneMore(m: Sram, key: Key, x: nat, y: nat)
    requires InQuadrant(Quadrant(key).x, Quadrant(key).y, x, y)
    ensures var q := Quadrant(key);
            var a := 640 * y + x;
            var k := RankIn(q.x, q.y, x, y);
            && a + PartnerOffset(q) < PIXELS
            && MixedTo(m, key, k)[a] == m[a]
            && MixedTo(m, key, k)[a + PartnerOffset(q)] == m[a + PartnerOffset(q)]
            && MixedTo(m, key, k + 1)
               == MixedTo(m, key, k)[a := m[a + PartnerOffset(q)]][a + PartnerOffset(q) := m[a]]
  {
    hide MixedTo, MixedWord, Quadrant, PartnerOffset;
    PartnerInside(key, x, y);
    MixedStillHere(m, key, x, y);
    MixedStillThere(m, key, x, y);
    var a, c := 640 * y + x, 640 * y + x + PartnerOffset(Quadrant(key));
    var k := RankIn(Quadrant(key).x, Quadrant(key).y, x, y);
    forall e | 0 <= e < SRAM_WORDS
      ensures MixedTo(m, key, k + 1)[e] == if e == c then m[a] else if e == a then m[c] else MixedTo(m, key, k)[e]
    {
      MixedWordStep(m, key, x, y, e);
      MixedAt(m, key, k, e);
      MixedAt(m, key, k + 1, e);
    }
    MixedAt(m, key, k, a);
    MixedAt(m, key, k, c);
    hide RankIn;
    BothPut(MixedTo(m, key, k), MixedTo(m, key, k + 1), a, c, m[c], m[a]);
  }

  lemma MixedAt(m: Sram, key: Key, k: nat, a: nat)
    requires a < SRAM_WORDS
    ensures MixedTo(m, key, k)[a] == MixedWord(m, key, k, a)
  {
  }

  lemma BothPut(s: Sram, t: Sram, a: nat, c: nat, v: bv16, w: bv16)
    requires a < SRAM_WORDS && c < SRAM_WORDS
    requires forall e :: 0 <= e < SRAM_WORDS ==> t[e] == if e == c then w else if e == a then v else s[e]
    ensures t == s[a := v][c := w]
  {
  }

  /** The word that is next has not been touched yet. */
  lemma MixedStillHere(m: Sram, key: Key, x: nat, y: nat)
    requires InQuadrant(Quadrant(key).x, Quadrant(key).y, x, y)
    ensures var q := Quadrant(key);
            0 <= RankIn(q.x, q.y, x, y) && 640 * y + x < PIXELS
            && MixedWord(m, key, RankIn(q.x, q.y, x, y), 640 * y + x) == m[640 * y + x]
  {
    PartnerPlace(key, x, y);
    DivMod640(y, x);
    hide Quadrant;
  }

  /** Neither has its partner. */
  lemma MixedStillThere(m: Sram, key: Key, x: nat, y: nat)
    requires InQuadrant(Quadrant(key).x, Quadrant(key).y, x, y)
    ensures var q := Quadrant(key);
            var c := 640 * y + x + PartnerOffset(q);
            0 <= RankIn(q.x, q.y, x, y) && c < PIXELS && MixedWord(m, key, RankIn(q.x, q.y, x, y), c) == m[c]
  {
    var q := Quadrant(key);
    PartnerPlace(key, x, y);
    assert RankIn(q.x + q.dx, q.y + q.dy, x + q.dx, y + q.dy) == RankIn(q.x, q.y, x, y);
    hide Quadrant, PartnerOffset;
  }

  lemma MixedWordStep(m: Sram, key: Key, x: nat, y: nat, e: nat)
    requires InQuadrant(Quadrant(key).x, Quadrant(key).y, x, y) && e < SRAM_WORDS
    ensures var q := Quadrant(key);
            var a := 640 * y + x;
            var c := a + PartnerOffset(q);
            var k := RankIn(q.x, q.y, x, y);
            MixedWord(m, key, k + 1, e)
            == if e == c then m[a] else if e == a then m[c] else MixedWord(m, key, k, e)
  {
    var q := Quadrant(key);
    PartnerPlace(key, x, y);
    DivMod640(y, x);
    var x', y' := e % 640, e / 640;
    if InQuadrant(q.x, q.y, x', y') {
      if RankIn(q.x, q.y, x', y') == RankIn(q.x, q.y, x, y) {
        SameRank(q.x, q.y, x, y, x', y');
      }
    } else if InQuadrant(q.x + q.dx, q.y + q.dy, x', y') {
      if RankIn(q.x + q.dx, q.y + q.dy, x', y') == RankIn(q.x, q.y, x, y) {
        SameRank(q.x + q.dx, q.y + q.dy, x + q.dx, y + q.dy, x', y');
      }
    }
  }

  lemma MixTwice(m: Sram, key: Key)
    ensures Mix(Mix(m, key), key) == m
  {
    forall a | 0 <= a < SRAM_WORDS
      ensures MixedWord(Mix(m, key), key, QUADRANT_WORDS, a) == m[a]
    {
      MixedWordTwice(m, key, a);
    }
  }

  lemma MixedWordTwice(m: Sram, key: Key, a: nat)
    requires a < SRAM_WORDS
    ensures MixedWord(Mix(m, key), key, QUADRANT_WORDS, a) == m[a]
  {
    var q := Quadrant(key);
    var x, y := a % 640, a / 640;
    if InQuadrant(q.x, q.y, x, y) {
      MixedThere(m, key, a);
      PartnerPlace(key, x, y);
    } else if InQuadrant(q.x + q.dx, q.y + q.dy, x, y) {
      MixedBack(m, key, a);
      PlaceOfPartner(key, x, y);
    }
    hide Quadrant;
  }

  lemma MixedThere(m: Sram, key: Key, a: nat)
    requires a < PIXELS && InQuadrant(Quadrant(key).x, Quadrant(key).y, a % 640, a / 640)
    ensures a + PartnerOffset(Quadrant(key)) < PIXELS
    ensures Mix(m, key)[a + PartnerOffset(Quadrant(key))] == m[a]
  {
    PartnerPlace(key, a % 640, a / 640);
    hide Quadrant;
  }

  lemma MixedBack(m: Sram, key: Key, a: nat)
    requires a < PIXELS
    requires var q := Quadrant(key); InQuadrant(q.x + q.dx, q.y + q.dy, a % 640, a / 640)
    ensures 0 <= a - PartnerOffset(Quadrant(key))
    ensures Mix(m, key)[a - PartnerOffset(Quadrant(key))] == m[a]
  {
    PlaceOfPartner(key, a % 640, a / 640);
    hide Quadrant;
  }

  // ------------------------------------------------------------------
  // Masking
  // ------------------------------------------------------------------

  /** Sixteen key bits as a word, least significant bit first. */
  function Pack(bits: seq<bool>): bv16 {
    if |bits| == 0 then 0 else (Pack(bits[1..]) << 1) | (if bits[0] then 1 else 0)
  }

  /** KEY[16j+15:16j], for the low two bits `j` of a counter. */
  function KeyWord(key: Key, counter: nat): bv16 {
    var j := counter % 4;
    Pack(key[16 * j..16 * j + 16])
  }

  function Masked(w: bv16, key: Key, counter: nat): bv16 {
    w ^ KeyWord(key, counter)
  }

  /** The first sweep has masked the first `k` words in row order, the second
      the first `l` words in column order. */
  function MaskedWord(m: Sram, key: Key, k: nat, l: nat, a: nat): bv16
    requires a < SRAM_WORDS
  {
    var x, y := a % 640, a / 640;
    var first := if a < PIXELS && a < k then Masked(m[a], key, x) else m[a];
    if a < PIXELS && 480 * x + y < l then Masked(first, key, y) else first
  }

  function MaskedTo(m: Sram, key: Key, k: nat, l: nat): Sram {
    seq(SRAM_WORDS, a requires 0 <= a < SRAM_WORDS => MaskedWord(m, key, k, l, a))
  }

  /** Every pixel masked with the key word of its column and that of its row. */
  function Mask(m: Sram, key: Key): Sram {
    MaskedTo(m, key, PIXELS, PIXELS)
  }

  lemma MaskedRowStep(m: Sram, key: Key, x: nat, y: nat)
    requires x < 640 && y < 480
    ensures var a := 640 * y + x;
            && MaskedTo(m, key, a, 0)[a] == m[a]
            && MaskedTo(m, key, a + 1, 0) == MaskedTo(m, key, a, 0)[a := Masked(m[a], key, x)]
  {
    DivMod640(y, x);
  }

  lemma MaskedColumnStep(m: Sram, key: Key, x: nat, y: nat)
    requires x < 640 && y < 480
    ensures var a := 640 * y + x;
            var l := 480 * x + y;
            && MaskedTo(m, key, PIXELS, l + 1)
               == MaskedTo(m, key, PIXELS, l)[a := Masked(MaskedTo(m, key, PIXELS, l)[a], key, y)]
  {
    var a := 640 * y + x;
    var l := 480 * x + y;
    DivMod640(y, x);
    forall e | 0 <= e < SRAM_WORDS
      ensures MaskedWord(m, key, PIXELS, l + 1, e)
           == if e == a then Masked(MaskedWord(m, key, PIXELS, l, a), key, y) else MaskedWord(m, key, PIXELS, l, e)
    {
      if e < PIXELS && 480 * (e % 640) + e / 640 == l {
        SameColumnRank(e % 640, e / 640, x, y);
      }
    }
  }

  lemma SameColumnRank(x: nat, y: nat, x': nat, y': nat)
    requires y < 480 && y' < 480 && 480 * x + y == 480 * x' + y'
    ensures x == x' && y == y'
  {
  }

  lemma XorUndoes(w: bv16, u: bv16, v: bv16)
    ensures (((w ^ u) ^ v) ^ u) ^ v == w
  {
  }

  lemma MaskedTwice(w: bv16, key: Key, x: nat, y: nat)
    ensures Masked(Masked(Masked(Masked(w, key, x), key, y), key, x), key, y) == w
  {
    XorUndoes(w, KeyWord(key, x), KeyWord(key, y));
    hide KeyWord;
  }

  lemma MaskTwice(m: Sram, key: Key)
    ensures Mask(Mask(m, key), key) == m
  {
    hide Masked;
    forall a | 0 <= a < SRAM_WORDS
      ensures MaskedWord(Mask(m, key), key, PIXELS, PIXELS, a) == m[a]
    {
      if a < PIXELS {
        MaskedTwice(m[a], key, a % 640, a / 640);
      }
    }
  }

  // ------------------------------------------------------------------
  // The cipher
  // ------------------------------------------------------------------

  const ROWS := Pass(Rows, false)
  const COLUMNS := Pass(Columns, false)
  const ROWS_BACK := Pass(Rows, true)
  const COLUMNS_BACK := Pass(Columns, true)

  function Encrypt(m: Sram, key: Key): Sram {
    Mask(Mix(Rotate(Rotate(m, ROWS, key), COLUMNS, key), key), key)
  }

  function Decrypt(m: Sram, key: Key): Sram {
    Rotate(Rotate(Mix(Mask(m, key), key), COLUMNS_BACK, key), ROWS_BACK, key)
  }

  lemma DecryptUndoesEncrypt(m: Sram, key: Key)
    ensures Decrypt(Encrypt(m, key), key) == m
  {
    var rows := Rotate(m, ROWS, key);
    var columns := Rotate(rows, COLUMNS, key);
    MaskTwice(Mix(columns, key), key);
    MixTwice(columns, key);
    MirroredRotationUndoes(rows, Columns, key);
    MirroredRotationUndoes(m, Rows, key);
  }
}
