/** The store keys of pending remote writes: a reserved prefix and a zero-padded sequence number. */
module JournalKeys {
  import opened Lex
  import opened Stores

  /** "\x00journal:" */
  const JOURNAL_PREFIX: Key := [0, 106, 111, 117, 114, 110, 97, 108, 58]
  const WIDTH: nat := 20
  const ZERO: byte := 48

  /** The largest sequence number: the counter is a signed 64-bit integer. */
  const MAX_SEQ: nat := 0x7FFF_FFFF_FFFF_FFFF

  function Pow10(w: nat): (p: nat)
    ensures p >= 1
  {
    if w == 0 then 1 else 10 * Pow10(w - 1)
  }

  /** `n` in decimal, padded with zeros to `w` digits. */
  function Digits(n: nat, w: nat): (d: Key)
    ensures |d| == w
  {
    if w == 0 then [] else Digits(n / 10, w - 1) + [ZERO + n % 10]
  }

  function JournalKey(n: nat): Key {
    JOURNAL_PREFIX + Digits(n, WIDTH)
  }

  function Parse(d: Key): int {
    if d == [] then 0
    else if ZERO <= d[|d| - 1] < ZERO + 10 && Parse(d[..|d| - 1]) >= 0
      then 10 * Parse(d[..|d| - 1]) + d[|d| - 1] - ZERO
    else -1
  }

  /** The sequence number a journal key carries; -1 if it carries none. */
  function SeqOf(jk: Key): int {
    if HasPrefix(jk, JOURNAL_PREFIX) then Parse(jk[|JOURNAL_PREFIX|..]) else -1
  }

  lemma {:induction false} ParseDigits(n: nat, w: nat)
    requires n < Pow10(w)
    ensures Parse(Digits(n, w)) == n
  {
    if w > 0 {
      assert Digits(n, w)[..w - 1] == Digits(n / 10, w - 1);
      ParseDigits(n / 10, w - 1);
    }
  }

  /** Zero-padded order is numeric order. */
  lemma {:induction false} DigitsOrder(a: nat, b: nat, w: nat)
    requires a < Pow10(w) && b < Pow10(w)
    ensures Less(Digits(a, w), Digits(b, w)) <==> a < b
  {
    if w > 0 {
      var x, y: byte := ZERO + a % 10, ZERO + b % 10;
      DigitsOrder(a / 10, b / 10, w - 1);
      EqualLengths(Digits(a / 10, w - 1), Digits(b / 10, w - 1), [x], [y]);
      if a / 10 != b / 10 {
        ParseDigits(a / 10, w - 1);
        ParseDigits(b / 10, w - 1);
      }
      OneByte(x, y);
    }
  }

  lemma OneByte(x: byte, y: byte)
    ensures Less([x], [y]) <==> x < y
  {
    assert [x][1..] == [] && [y][1..] == [];
  }

  lemma Bounds()
    ensures MAX_SEQ < Pow10(WIDTH)
  {
    assert Pow10(4) == 10000;
    assert Pow10(8) == 10000 * Pow10(4);
    assert Pow10(12) == 10000 * Pow10(8);
    assert Pow10(16) == 10000 * Pow10(12);
    assert Pow10(20) == 10000 * Pow10(16);
  }

  /** Byte order of journal keys is sequence order, so a sorted scan is oldest first. */
  lemma JournalKeyOrder(a: nat, b: nat)
    requires a <= MAX_SEQ && b <= MAX_SEQ
    ensures Less(JournalKey(a), JournalKey(b)) <==> a < b
    ensures JournalKey(a) == JournalKey(b) <==> a == b
  {
    Bounds();
    DigitsOrder(a, b, WIDTH);
    PrefixCancels(JOURNAL_PREFIX, Digits(a, WIDTH), Digits(b, WIDTH));
    JournalKeySeq(a);
    JournalKeySeq(b);
  }

  /** Reading the number back. */
  lemma JournalKeySeq(n: nat)
    requires n <= MAX_SEQ
    ensures HasPrefix(JournalKey(n), JOURNAL_PREFIX) && SeqOf(JournalKey(n)) == n
  {
    Bounds();
    ParseDigits(n, WIDTH);
    assert JournalKey(n)[|JOURNAL_PREFIX|..] == Digits(n, WIDTH);
  }
}
