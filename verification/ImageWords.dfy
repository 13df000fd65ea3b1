/** The cipher word by word: where each word of the encrypted picture comes from,
    by row and column, and which key bits each of its bits is combined with. */
module ImageWords {
  import opened Bits
  import opened ImageCipher

  // ------------------------------------------------------------------
  // Which lines are rotated
  // ------------------------------------------------------------------

  /** Block `b` of a selected key bit begins on line 8b, or on the line before if
      a lower key bit is set, and ends on line 8b + 6. */
  lemma SelectedExactly(p: Pass, key: Key, n: nat)
    ensures Selected(p, key, n) <==>
              exists b: nat :: b < p.Blocks() && key[b]
                && (if exists c: nat :: c < b && key[c] then 8 * b - 1 else 8 * b) <= n <= 8 * b + 6
  {
    var d := (n + 1) / 8;
    if Selected(p, key, n) {
      if n + 1 == 8 * d {
        assert SomeBefore(key, d);
        var c :| 0 <= c < d && key[c];
      }
      assert d < p.Blocks() && key[d];
    }
    forall b: nat | b < p.Blocks() && key[b]
                    && (if exists c: nat :: c < b && key[c] then 8 * b - 1 else 8 * b) <= n <= 8 * b + 6
      ensures Selected(p, key, n)
    {
      assert d == b;
      if n + 1 == 8 * b {
        var c: nat :| c < b && key[c];
        assert SomeBefore(key, b);
      }
    }
  }

  // ------------------------------------------------------------------
  // Rotation
  // ------------------------------------------------------------------

  /** Column x of a selected row gets the word of column x + 8, and back. */
  lemma RowRotated(m: Sram, key: Key, x: nat, y: nat)
    requires x < 640 && y < 480
    ensures Rotate(m, ROWS, key)[640 * y + x]
            == if Selected(ROWS, key, y) then m[640 * y + (x + 8) % 640] else m[640 * y + x]
    ensures Rotate(m, ROWS_BACK, key)[640 * y + x]
            == if Selected(ROWS, key, y) then m[640 * y + (x + 632) % 640] else m[640 * y + x]
  {
    hide Rotate, Selected, LineOf, PositionOf, Cell;
    RowPlaces(x, y);
    MirroredSelection(Rows, key, y);
    if Selected(ROWS, key, y) {
      RotatedSelected(m, ROWS, key, 640 * y + x);
      RotatedSelected(m, ROWS_BACK, key, 640 * y + x);
    } else {
      RotatedElsewhere(m, ROWS, key, 640 * y + x);
      RotatedElsewhere(m, ROWS_BACK, key, 640 * y + x);
    }
  }

  lemma RowPlaces(x: nat, y: nat)
    requires x < 640 && y < 480
    ensures LineOf(ROWS, 640 * y + x) == LineOf(ROWS_BACK, 640 * y + x) == y
    ensures PositionOf(ROWS, 640 * y + x) == x && PositionOf(ROWS_BACK, 640 * y + x) == 639 - x
    ensures Cell(ROWS, y, (x + 8) % 640) == 640 * y + (x + 8) % 640
    ensures Cell(ROWS_BACK, y, (639 - x + 8) % 640) == 640 * y + (x + 632) % 640
  {
    DivMod640(y, x);
  }

  /** Row y of a selected column gets the word of row y + 8, and back. */
  lemma ColumnRotated(m: Sram, key: Key, x: nat, y: nat)
    requires x < 640 && y < 480
    ensures Rotate(m, COLUMNS, key)[640 * y + x]
            == if Selected(COLUMNS, key, x) then m[640 * ((y + 8) % 480) + x] else m[640 * y + x]
    ensures Rotate(m, COLUMNS_BACK, key)[640 * y + x]
            == if Selected(COLUMNS, key, x) then m[640 * ((y + 472) % 480) + x] else m[640 * y + x]
  {
    hide Rotate, Selected, LineOf, PositionOf, Cell;
    ColumnPlaces(x, y);
    MirroredSelection(Columns, key, x);
    if Selected(COLUMNS, key, x) {
      RotatedSelected(m, COLUMNS, key, 640 * y + x);
      RotatedSelected(m, COLUMNS_BACK, key, 640 * y + x);
    } else {
      RotatedElsewhere(m, COLUMNS, key, 640 * y + x);
      RotatedElsewhere(m, COLUMNS_BACK, key, 640 * y + x);
    }
  }

  lemma ColumnPlaces(x: nat, y: nat)
    requires x < 640 && y < 480
    ensures LineOf(COLUMNS, 640 * y + x) == LineOf(COLUMNS_BACK, 640 * y + x) == x
    ensures PositionOf(COLUMNS, 640 * y + x) == y && PositionOf(COLUMNS_BACK, 640 * y + x) == 479 - y
    ensures Cell(COLUMNS, x, (y + 8) % 480) == 640 * ((y + 8) % 480) + x
    ensures Cell(COLUMNS_BACK, x, (479 - y + 8) % 480) == 640 * ((y + 472) % 480) + x
  {
    DivMod640(y, x);
  }

  // ------------------------------------------------------------------
  // Exchange
  // ------------------------------------------------------------------

  /** Where the word at (x, y) comes from, for each value of key bits 24 and 48:
      the upper two quadrants, the left two, the lower two or the right two
      change places. */
  function Across(key: Key, x: nat, y: nat): (r: (nat, nat))
    requires x < 640 && y < 480
    ensures r.0 < 640 && r.1 < 480
  {
    var aside := if x < 320 then x + 320 else x - 320;
    var over := if y < 240 then y + 240 else y - 240;
    if !key[24] && !key[48] && y < 240 then (aside, y)
    else if !key[24] && key[48] && x < 320 then (x, over)
    else if key[24] && !key[48] && y >= 240 then (aside, y)
    else if key[24] && key[48] && x >= 320 then (x, over)
    else (x, y)
  }

  lemma Exchanged(m: Sram, key: Key, x: nat, y: nat)
    requires x < 640 && y < 480
    ensures var (x', y') := Across(key, x, y);
            Mix(m, key)[640 * y + x] == m[640 * y' + x']
  {
    var q := Quadrant(key);
    DivMod640(y, x);
    MixedAt(m, key, QUADRANT_WORDS, 640 * y + x);
    if InQuadrant(q.x, q.y, x, y) {
      PartnerInside(key, x, y);
    } else if InQuadrant(q.x + q.dx, q.y + q.dy, x, y) {
      PlaceOfPartner(key, x, y);
    }
  }

  // ------------------------------------------------------------------
  // Masking
  // ------------------------------------------------------------------

  function Push(rest: bv16, b: bool): bv16 { (rest << 1) | (if b then 1 else 0) }

  lemma PackMore(bits: seq<bool>)
    ensures bits != [] ==> Pack(bits) == Push(Pack(bits[1..]), bits[0])
  {
  }

  lemma {:induction false} PackBits(bits: seq<bool>, i: nat)
    requires |bits| <= 16 && i < 16
    ensures BitOf(Pack(bits), i) <==> i < |bits| && bits[i]
    decreases |bits|
  {
    if bits == [] {
      ZeroBits(i);
    } else {
      hide Half, Odd, Pack, Push;
      PackMore(bits);
      PackBits(bits[1..], 15);
      PushOnce(Pack(bits[1..]), bits[0]);
      if i > 0 {
        PackBits(bits[1..], i - 1);
      }
    }
  }

  lemma PushOnce(rest: bv16, b: bool)
    requires !BitOf(rest, 15)
    ensures Half(Push(rest, b)) == rest && (Odd(Push(rest, b)) <==> b)
  {
    TopBit(rest);
    hide BitOf;
  }

  lemma TopBit(w: bv16)
    requires !BitOf(w, 15)
    ensures w & 0x8000 == 0
  {
    Shifted(w, 7);
    Shifted(Halved8(w), 0);
  }

  /** Bit `i` of the masked picture at (x, y) is the picture's, combined with a key
      bit chosen by the column and one chosen by the row. */
  lemma MaskedBit(m: Sram, key: Key, x: nat, y: nat, i: nat)
    requires x < 640 && y < 480 && i < 16
    ensures BitOf(Mask(m, key)[640 * y + x], i)
            <==> BitOf(m[640 * y + x], i) != (key[16 * (x % 4) + i] != key[16 * (y % 4) + i])
  {
    hide KeyWord, Xor, Mask, BitOf;
    var w := m[640 * y + x];
    MaskedIs(m, key, x, y);
    KeyBit(key, x, i);
    KeyBit(key, y, i);
    XorBits(Xor(w, KeyWord(key, x)), KeyWord(key, y), i);
    XorBits(w, KeyWord(key, x), i);
  }

  lemma MaskedIs(m: Sram, key: Key, x: nat, y: nat)
    requires x < 640 && y < 480
    ensures Mask(m, key)[640 * y + x] == Xor(Xor(m[640 * y + x], KeyWord(key, x)), KeyWord(key, y))
  {
    hide KeyWord, Masked, Xor;
    DivMod640(y, x);
    MaskedXor(m[640 * y + x], key, x);
    MaskedXor(Masked(m[640 * y + x], key, x), key, y);
  }

  lemma MaskedXor(w: bv16, key: Key, counter: nat)
    ensures Masked(w, key, counter) == Xor(w, KeyWord(key, counter))
  {
    hide KeyWord;
  }

  lemma KeyBit(key: Key, counter: nat, i: nat)
    requires i < 16
    ensures BitOf(KeyWord(key, counter), i) <==> key[16 * (counter % 4) + i]
  {
    var j := counter % 4;
    PackBits(key[16 * j..16 * j + 16], i);
  }

  // ------------------------------------------------------------------
  // The cipher
  // ------------------------------------------------------------------

  /** Where the word of the encrypted picture at (x, y) comes from. */
  function Whence(key: Key, x: nat, y: nat): (r: (nat, nat))
    requires x < 640 && y < 480
    ensures r.0 < 640 && r.1 < 480
  {
    var (x1, y1) := Across(key, x, y);
    var y2 := if Selected(COLUMNS, key, x1) then (y1 + 8) % 480 else y1;
    (if Selected(ROWS, key, y2) then (x1 + 8) % 640 else x1, y2)
  }

  /** Every bit of the encrypted picture. */
  lemma EncryptedBit(m: Sram, key: Key, x: nat, y: nat, i: nat)
    requires x < 640 && y < 480 && i < 16
    ensures var (x', y') := Whence(key, x, y);
            BitOf(Encrypt(m, key)[640 * y + x], i)
            <==> BitOf(m[640 * y' + x'], i) != (key[16 * (x % 4) + i] != key[16 * (y % 4) + i])
  {
    hide Rotate, Mix, Mask, Selected, BitOf;
    var rows := Rotate(m, ROWS, key);
    var columns := Rotate(rows, COLUMNS, key);
    var (x1, y1) := Across(key, x, y);
    MaskedBit(Mix(columns, key), key, x, y, i);
    Exchanged(columns, key, x, y);
    ColumnRotated(rows, key, x1, y1);
    RowRotated(m, key, x1, if Selected(COLUMNS, key, x1) then (y1 + 8) % 480 else y1);
  }

  /** And the rest of the memory is not part of the picture. */
  lemma OutsideStays(m: Sram, key: Key, a: nat)
    requires PIXELS <= a < SRAM_WORDS
    ensures Encrypt(m, key)[a] == m[a] && Decrypt(m, key)[a] == m[a]
  {
    hide Rotate;
    forall s: Sram, p: Pass ensures Rotate(s, p, key)[a] == s[a] {
      RotatedElsewhere(s, p, key, a);
    }
    forall s: Sram ensures Mix(s, key)[a] == s[a] && Mask(s, key)[a] == s[a] {
      MixedAt(s, key, QUADRANT_WORDS, a);
    }
  }
}
