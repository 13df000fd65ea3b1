/** How the camera is set up in the end: each register holds the value of the last
    row of the table that names it. */
module SccbRegisters {
  import opened Options
  import opened SccbMaster
  import opened SccbRuns

  /** What a register holds after some writes, if it was written. */
  function Register(writes: seq<(Byte, Byte)>, r: Byte): Option<Byte> {
    if writes == [] then None
    else
      var last := writes[|writes| - 1];
      if last.0 == r then Some(last.1) else Register(writes[..|writes| - 1], r)
  }

  /** The camera as the rows sent leave it: the value of each register and the row
      that decides it.  COM7 (0x12) stays at 0x04: the row that would set it to
      0x14 is not sent. */
  function SetUp(r: Byte): Option<(Byte, nat)> {
    match r
    case 0x03 => Some((0x0a, 0x19))
    case 0x04 => Some((0x00, 0x07))
    case 0x0c => Some((0x00, 0x04))
    case 0x0e => Some((0x61, 0x1a))
    case 0x0f => Some((0x4b, 0x1b))
    case 0x11 => Some((0x00, 0x13))
    case 0x12 => Some((0x04, 0x02))
    case 0x14 => Some((0x38, 0x0a))
    case 0x16 => Some((0x02, 0x1c))
    case 0x17 => Some((0x11, 0x14))
    case 0x18 => Some((0x61, 0x15))
    case 0x19 => Some((0x03, 0x17))
    case 0x1a => Some((0x7b, 0x18))
    case 0x1e => Some((0x37, 0x1d))
    case 0x21 => Some((0x02, 0x1e))
    case 0x22 => Some((0x91, 0x1f))
    case 0x29 => Some((0x07, 0x20))
    case 0x32 => Some((0xa4, 0x16))
    case 0x33 => Some((0x0b, 0x21))
    case 0x35 => Some((0x0b, 0x22))
    case 0x37 => Some((0x1d, 0x23))
    case 0x38 => Some((0x71, 0x24))
    case 0x39 => Some((0x2a, 0x25))
    case 0x3a => Some((0x04, 0x09))
    case 0x3c => Some((0x78, 0x26))
    case 0x3d => Some((0xc0, 0x12))
    case 0x3e => Some((0x19, 0x3a))
    case 0x40 => Some((0x10, 0x08))
    case 0x4d => Some((0x40, 0x27))
    case 0x4e => Some((0x20, 0x28))
    case 0x4f => Some((0x40, 0x0b))
    case 0x50 => Some((0x34, 0x0c))
    case 0x51 => Some((0x0c, 0x0d))
    case 0x52 => Some((0x17, 0x0e))
    case 0x53 => Some((0x29, 0x0f))
    case 0x54 => Some((0x40, 0x10))
    case 0x58 => Some((0x1e, 0x11))
    case 0x69 => Some((0x00, 0x29))
    case 0x6b => Some((0x4a, 0x2a))
    case 0x72 => Some((0x11, 0x38))
    case 0x73 => Some((0xf1, 0x39))
    case 0x74 => Some((0x10, 0x2b))
    case 0x8c => Some((0x00, 0x06))
    case 0x8d => Some((0x4f, 0x2c))
    case 0x8e => Some((0x00, 0x2d))
    case 0x8f => Some((0x00, 0x2e))
    case 0x90 => Some((0x00, 0x2f))
    case 0x91 => Some((0x00, 0x30))
    case 0x96 => Some((0x00, 0x31))
    case 0x9a => Some((0x00, 0x32))
    case 0xb0 => Some((0x84, 0x33))
    case 0xb1 => Some((0x0c, 0x34))
    case 0xb2 => Some((0x0e, 0x35))
    case 0xb3 => Some((0x82, 0x36))
    case 0xb8 => Some((0x0a, 0x37))
    case _ => None
  }

  /** Of the rows that name a register, the last decides it. */
  lemma LaterRowDecides(c: nat)
    requires c < LAST
    ensures var d := SetUp(Entry(c).0);
            d.Some? && c <= d.value.1 < LAST
  {
    if c < 0x14 {
      FirstRows(c);
    } else if c < 0x28 {
      MiddleRows(c);
    } else if c < 0x32 {
      LaterRows(c);
    } else {
      LastRows(c);
    }
    hide Entry, SetUp;
  }

  lemma FirstRows(c: nat)
    requires c < 0x14
    ensures var d := SetUp(Entry(c).0);
            d.Some? && c <= d.value.1 < LAST
  {
  }

  lemma MiddleRows(c: nat)
    requires 0x14 <= c < 0x28
    ensures var d := SetUp(Entry(c).0);
            d.Some? && c <= d.value.1 < LAST
  {
  }

  lemma LaterRows(c: nat)
    requires 0x28 <= c < 0x32
    ensures var d := SetUp(Entry(c).0);
            d.Some? && c <= d.value.1 < LAST
  {
  }

  lemma LastRows(c: nat)
    requires 0x32 <= c < LAST
    ensures var d := SetUp(Entry(c).0);
            d.Some? && c <= d.value.1 < LAST
  {
  }

  lemma RowDecides(r: Byte)
    ensures SetUp(r).Some? ==> SetUp(r).value.1 < LAST && Entry(SetUp(r).value.1) == (r, SetUp(r).value.0)
  {
  }

  lemma {:induction false} RegisterAfter(n: nat, r: Byte)
    requires n <= LAST
    ensures SetUp(r).None? ==> Register(Entries(n), r).None?
    ensures SetUp(r).Some? && SetUp(r).value.1 < n ==> Register(Entries(n), r) == Some(SetUp(r).value.0)
  {
    hide Entry, SetUp;
    if n > 0 {
      assert Entries(n)[..|Entries(n)| - 1] == Entries(n - 1);
      LaterRowDecides(n - 1);
      RowDecides(r);
      RegisterAfter(n - 1, r);
    }
  }

  /** Once the whole table has been heard, every register of the camera holds what
      it is meant to, and no other has been touched. */
  lemma HeardIsSetUp(r: Byte)
    ensures Register(Entries(LAST), r) == if SetUp(r).Some? then Some(SetUp(r).value.0) else None
  {
    hide Entry, SetUp, Register;
    RowDecides(r);
    RegisterAfter(LAST, r);
  }
}
