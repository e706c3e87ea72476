/** The newest records of a log, read block by block from its end. */
module TailReader {
  import opened Lex
  import opened Options
  import opened Sequences

  type Bytes = seq<byte>

  const NEWLINE: byte := 10

  /** The pieces between newlines; one more than there are newlines. */
  function Split(s: Bytes): (ls: seq<Bytes>)
    ensures |ls| >= 1
  {
    if s == [] then [[]]
    else
      var r := Split(s[1..]);
      if s[0] == NEWLINE then [[]] + r else [[s[0]] + r[0]] + r[1..]
  }

  /** Trimming, parsing, and the age filter, as total functions. */
  datatype Decoder<!R> = Decoder(trim: Bytes -> Bytes, parse: Bytes -> Option<R>, older: R -> bool)

  /** The record a line contributes: none if it is blank, does not parse, or is not older than the cutoff. */
  function Kept<R>(d: Decoder<R>, line: Bytes): Option<R> {
    if d.trim(line) == [] then None
    else
      var r := d.parse(d.trim(line));
      if r.Some? && d.older(r.value) then r else None
  }

  function Records<R>(d: Decoder<R>, ls: seq<Bytes>): seq<R> {
    if ls == [] then []
    else
      var r := Kept(d, ls[|ls| - 1]);
      Records(d, ls[..|ls| - 1]) + (if r.Some? then [r.value] else [])
  }

  function LastN<T>(s: seq<T>, n: int): seq<T> {
    if n <= 0 then [] else if |s| <= n then s else s[|s| - n..]
  }

  /** The promise: split all lines, keep the matching records, take the last `n`, in file order. */
  function Tail<R>(d: Decoder<R>, file: Bytes, n: int): seq<R> {
    LastN(Records(d, Split(file)), n)
  }

  // ----- the backward scan as a function -----

  function BlockSize(len: nat, chunk: nat): (k: nat)
    requires chunk >= 1
    ensures k <= len && (len > 0 ==> k > 0)
  {
    if len < chunk then len else chunk
  }

  /** The lines the scan assembles from the unread part `p` and the partial line `carry` behind it.
      A carry of more than four chunks is dropped. */
  function Scan(p: Bytes, carry: Bytes, chunk: nat): seq<Bytes>
    requires chunk >= 1
    decreases |p|
  {
    if p == [] then []
    else
      var off := |p| - BlockSize(|p|, chunk);
      var ls := Split(p[off..] + carry);
      if off == 0 then ls
      else Scan(p[..off], if |ls[0]| > 4 * chunk then [] else ls[0], chunk) + ls[1..]
  }

  // ----- splitting -----

  predicate OneLine(s: Bytes) {
    NEWLINE !in s
  }

  lemma {:induction false} SplitOneLine(s: Bytes)
    requires OneLine(s)
    ensures Split(s) == [s]
  {
    if s != [] {
      SplitOneLine(s[1..]);
      assert s == [s[0]] + s[1..];
    }
  }

  lemma {:induction false} SplitFirst(s: Bytes)
    ensures OneLine(Split(s)[0]) && |Split(s)[0]| <= |s|
  {
    if s != [] {
      SplitFirst(s[1..]);
    }
  }

  /** Two lists of lines, the last one of the first glued to the first one of the second. */
  function Glue(la: seq<Bytes>, lb: seq<Bytes>): (r: seq<Bytes>)
    requires |la| >= 1 && |lb| >= 1
    ensures |r| == |la| + |lb| - 1
  {
    la[..|la| - 1] + [la[|la| - 1] + lb[0]] + lb[1..]
  }

  lemma GlueLine(la: seq<Bytes>, lb: seq<Bytes>)
    requires |la| >= 1 && |lb| >= 1
    ensures Glue([[]] + la, lb) == [[]] + Glue(la, lb)
  {
    var l := [[]] + la;
    assert l[..|l| - 1] == [[]] + la[..|la| - 1];
  }

  lemma GlueByte(x: byte, la: seq<Bytes>, lb: seq<Bytes>)
    requires |la| >= 1 && |lb| >= 1
    ensures var g := Glue(la, lb); Glue([[x] + la[0]] + la[1..], lb) == [[x] + g[0]] + g[1..]
  {
    var l, g := [[x] + la[0]] + la[1..], Glue(la, lb);
    if |la| == 1 {
      assert [x] + (la[0] + lb[0]) == ([x] + la[0]) + lb[0];
      assert g == [la[0] + lb[0]] + lb[1..];
      assert Glue(l, lb) == [([x] + la[0]) + lb[0]] + lb[1..];
    } else {
      assert g == [la[0]] + (la[1..|la| - 1] + [la[|la| - 1] + lb[0]] + lb[1..]);
      assert Glue(l, lb) == [[x] + la[0]] + (la[1..|la| - 1] + [la[|la| - 1] + lb[0]] + lb[1..]);
    }
  }

  /** Joining two texts joins the last line of the one and the first line of the other. */
  lemma {:induction false} SplitConcat(a: Bytes, b: Bytes)
    ensures Split(a + b) == Glue(Split(a), Split(b))
  {
    hide Glue;
    if a == [] {
      assert a + b == b;
      GlueNothing(Split(b));
    } else {
      assert (a + b)[1..] == a[1..] + b;
      SplitConcat(a[1..], b);
      GlueLine(Split(a[1..]), Split(b));
      GlueByte(a[0], Split(a[1..]), Split(b));
    }
  }

  lemma GlueNothing(lb: seq<Bytes>)
    requires |lb| >= 1
    ensures Glue([[]], lb) == lb
  {
    assert [] + lb[0] == lb[0];
  }

  /** Splitting a text whose tail is a partial line and then whole lines. */
  lemma SplitBlock(p: Bytes, k: Bytes, carry: Bytes)
    requires OneLine(carry)
    ensures var ls := Split(k + carry);
            && OneLine(ls[0])
            && Split(p + k + carry) == Split(p + ls[0]) + ls[1..]
  {
    var ls := Split(k + carry);
    SplitFirst(k + carry);
    assert p + k + carry == p + (k + carry);
    SplitConcat(p, k + carry);
    SplitConcat(p, ls[0]);
    SplitOneLine(ls[0]);
  }

  // ----- what dropping a carry does -----

  /** `s` and `t` have equally many lines, and each line of `s` is a prefix of that of `t`. */
  predicate Prefixes(s: seq<Bytes>, t: seq<Bytes>) {
    |s| == |t| && forall i :: 0 <= i < |s| ==> s[i] <= t[i]
  }

  /** The scan never loses or invents a line: at worst a line is cut to a prefix of itself. */
  lemma {:induction false} ScanOnlyShortens(p: Bytes, carry: Bytes, chunk: nat)
    requires chunk >= 1 && p != [] && OneLine(carry)
    ensures Prefixes(Scan(p, carry, chunk), Split(p + carry))
    decreases |p|
  {
    var off := |p| - BlockSize(|p|, chunk);
    var ls := Split(p[off..] + carry);
    assert p == p[..off] + p[off..];
    SplitBlock(p[..off], p[off..], carry);
    if off == 0 {
      assert p[..0] + p[0..] + carry == p[0..] + carry;
    } else {
      var carry' := if |ls[0]| > 4 * chunk then [] else ls[0];
      ScanOnlyShortens(p[..off], carry', chunk);
      ShorterCarry(p[..off], ls[0], carry');
    }
  }

  /** Dropping a partial last line changes only the last line. */
  lemma ShorterCarry(p: Bytes, carry: Bytes, carry': Bytes)
    requires OneLine(carry) && (carry' == carry || carry' == [])
    ensures Prefixes(Split(p + carry'), Split(p + carry))
  {
    SplitConcat(p, carry);
    SplitConcat(p, carry');
    SplitOneLine(carry);
    SplitOneLine(carry');
  }

  /** No carry on the way is too long. */
  predicate NothingDropped(p: Bytes, carry: Bytes, chunk: nat)
    requires chunk >= 1
    decreases |p|
  {
    p == [] ||
    var off := |p| - BlockSize(|p|, chunk);
    var first := Split(p[off..] + carry)[0];
    off == 0 || (|first| <= 4 * chunk && NothingDropped(p[..off], first, chunk))
  }

  /** The scan yields exactly the lines of the text if and only if no carry is dropped. */
  lemma {:induction false} ScanExact(p: Bytes, carry: Bytes, chunk: nat)
    requires chunk >= 1 && p != [] && OneLine(carry)
    ensures Scan(p, carry, chunk) == Split(p + carry) <==> NothingDropped(p, carry, chunk)
    decreases |p|
  {
    var off := |p| - BlockSize(|p|, chunk);
    var ls := Split(p[off..] + carry);
    assert p == p[..off] + p[off..];
    SplitBlock(p[..off], p[off..], carry);
    if off == 0 {
      assert p[..0] + p[0..] + carry == p[0..] + carry;
    } else if |ls[0]| > 4 * chunk {
      DroppedDiffers(p[..off], ls[0], chunk);
      TailsEqual(Scan(p[..off], [], chunk), Split(p[..off] + ls[0]), ls[1..]);
    } else {
      ScanExact(p[..off], ls[0], chunk);
      TailsEqual(Scan(p[..off], ls[0], chunk), Split(p[..off] + ls[0]), ls[1..]);
    }
  }

  lemma TailsEqual<T>(a: seq<T>, b: seq<T>, c: seq<T>)
    ensures a + c == b + c <==> a == b
  {
    if a + c == b + c {
      assert |a| == |b|;
      assert a == (a + c)[..|a|] && b == (b + c)[..|b|];
    }
  }

  lemma DroppedDiffers(p: Bytes, first: Bytes, chunk: nat)
    requires chunk >= 1 && p != [] && OneLine(first) && first != []
    ensures Scan(p, [], chunk) != Split(p + first)
  {
    ScanOnlyShortens(p, [], chunk);
    SplitConcat(p, first);
    SplitOneLine(first);
    var s, t := Scan(p, [], chunk), Split(p);
    assert p + [] == p;
    assert |s[|s| - 1]| <= |t[|t| - 1]|;
    assert Split(p + first)[|t| - 1] == t[|t| - 1] + first;
  }

  // ----- the condition on the file -----

  /** Where the blocks of a backward read of `len` bytes start, the file start aside. */
  function Boundaries(len: nat, chunk: nat): (bs: seq<nat>)
    requires chunk >= 1
    ensures forall o :: o in bs ==> 0 < o < len
  {
    if len <= chunk then [] else [len - chunk] + Boundaries(len - chunk, chunk)
  }

  /** The length of the newline-free run that starts at `off`. */
  function RunAt(file: Bytes, off: nat): nat
    requires off <= |file|
  {
    |Split(file[off..])[0]|
  }

  predicate ShortRunsBelow(file: Bytes, off: nat, chunk: nat)
    requires chunk >= 1 && off <= |file|
  {
    forall o :: o in Boundaries(off, chunk) ==> RunAt(file, o) <= 4 * chunk
  }

  /** No newline-free run of more than four chunks starts at a block boundary. */
  predicate ShortRuns(file: Bytes, chunk: nat)
    requires chunk >= 1
  {
    ShortRunsBelow(file, |file|, chunk)
  }

  lemma FirstLine(k: Bytes, x: Bytes)
    ensures Split(k + x)[0] == Split(k + Split(x)[0])[0]
  {
    SplitFirst(x);
    SplitConcat(k, x);
    SplitConcat(k, Split(x)[0]);
    SplitOneLine(Split(x)[0]);
  }

  lemma ShortRunsStep(file: Bytes, off: nat, chunk: nat)
    requires 1 <= chunk < off <= |file|
    ensures var at := off - chunk;
            ShortRunsBelow(file, off, chunk) <==> RunAt(file, at) <= 4 * chunk && ShortRunsBelow(file, at, chunk)
  {
    hide RunAt;
    var at := off - chunk;
    assert Boundaries(off, chunk) == [at] + Boundaries(at, chunk);
    assert at in Boundaries(off, chunk);
  }

  lemma {:induction false} NothingDroppedIff(file: Bytes, off: nat, chunk: nat)
    requires chunk >= 1 && off <= |file|
    ensures NothingDropped(file[..off], Split(file[off..])[0], chunk) <==> ShortRunsBelow(file, off, chunk)
    decreases off
  {
    hide Split, ShortRunsBelow;
    var p, carry := file[..off], Split(file[off..])[0];
    if off > chunk {
      var at := off - chunk;
      assert p[..at] == file[..at];
      assert file[at..] == p[at..] + file[off..];
      FirstLine(p[at..], file[off..]);
      assert Split(p[at..] + carry)[0] == Split(file[at..])[0];
      NothingDroppedIff(file, at, chunk);
      ShortRunsStep(file, off, chunk);
    } else {
      NoBoundaries(file, off, chunk);
    }
  }

  lemma NoBoundaries(file: Bytes, off: nat, chunk: nat)
    requires off <= chunk && 1 <= chunk && off <= |file|
    ensures ShortRunsBelow(file, off, chunk)
  {
  }

  /** Scanning a whole file backwards yields exactly its lines if and only if no newline-free run of
      more than four chunks starts at a block boundary. */
  lemma WholeFileExact(file: Bytes, chunk: nat)
    requires chunk >= 1 && file != []
    ensures Scan(file, [], chunk) == Split(file) <==> ShortRuns(file, chunk)
  {
    ScanExact(file, [], chunk);
    NothingDroppedIff(file, |file|, chunk);
    assert file[..|file|] == file && file[|file|..] == [] && file + [] == file;
  }

  /** Lines of at most four chunks are short enough, wherever the boundaries fall. */
  lemma ShortLinesShortRuns(file: Bytes, chunk: nat)
    requires chunk >= 1 && forall i :: 0 <= i < |Split(file)| ==> |Split(file)[i]| <= 4 * chunk
    ensures ShortRuns(file, chunk)
  {
    forall o | o in Boundaries(|file|, chunk) ensures RunAt(file, o) <= 4 * chunk {
      assert file == file[..o] + file[o..];
      SplitConcat(file[..o], file[o..]);
      var la, lb := Split(file[..o]), Split(file[o..]);
      assert Split(file)[|la| - 1] == la[|la| - 1] + lb[0];
    }
  }

  lemma {:induction false} BoundaryIn(len: nat, chunk: nat, hi: nat) returns (o: nat)
    requires 1 <= chunk < hi <= len
    ensures o in Boundaries(len, chunk) && hi - chunk <= o < hi
    decreases len
  {
    if len - chunk < hi {
      o := len - chunk;
    } else {
      o := BoundaryIn(len - chunk, chunk, hi);
    }
  }

  /** A line of more than five chunks is cut, wherever the boundaries fall. */
  lemma LongLineCut(u: Bytes, line: Bytes, v: Bytes, chunk: nat)
    requires chunk >= 1 && OneLine(line) && |line| > 5 * chunk && (v == [] || v[0] == NEWLINE)
    ensures Scan(u + line + v, [], chunk) != Split(u + line + v)
  {
    var file := u + line + v;
    var o := BoundaryIn(|file|, chunk, |u| + |line| - 4 * chunk);
    var rest := line[o - |u|..];
    assert file[o..] == rest + v;
    SplitConcat(rest, v);
    SplitOneLine(rest);
    assert RunAt(file, o) == |rest|;
    WholeFileExact(file, chunk);
  }

  // ----- the reader -----

  lemma {:induction false} RecordsConcat<R>(d: Decoder<R>, a: seq<Bytes>, b: seq<Bytes>)
    ensures Records(d, a + b) == Records(d, a) + Records(d, b)
    decreases |b|
  {
    if b == [] {
      assert a + b == a;
    } else {
      assert (a + b)[..|a + b| - 1] == a + b[..|b| - 1];
      RecordsConcat(d, a, b[..|b| - 1]);
    }
  }

  lemma RecordsOne<R>(d: Decoder<R>, line: Bytes)
    ensures Records(d, [line]) == if Kept(d, line).Some? then [Kept(d, line).value] else []
  {
    var one: seq<Bytes> := [line];
    assert one[..0] == [];
  }

  lemma LastNGrows<T>(s: seq<T>, t: seq<T>, n: int)
    ensures |t| >= n ==> LastN(s + t, n) == LastN(t, n)
    ensures LastN(s + LastN(t, n), n) == LastN(s + t, n)
  {
  }

  /** The records of the lines from `i` on, then the newer ones. */
  function Seen<R>(d: Decoder<R>, lines: seq<Bytes>, i: nat, newer: seq<R>): seq<R>
    requires i <= |lines|
  {
    Records(d, lines[i..]) + newer
  }

  lemma SeenNone<R>(d: Decoder<R>, lines: seq<Bytes>, newer: seq<R>)
    ensures Seen(d, lines, |lines|, newer) == newer
  {
  }

  lemma SeenOne<R>(d: Decoder<R>, lines: seq<Bytes>, i: nat, newer: seq<R>)
    requires i < |lines|
    ensures var r := Kept(d, lines[i]);
            Seen(d, lines, i, newer) == (if r.Some? then [r.value] else []) + Seen(d, lines, i + 1, newer)
  {
    assert lines[i..] == [lines[i]] + lines[i + 1..];
    RecordsConcat(d, [lines[i]], lines[i + 1..]);
    RecordsOne(d, lines[i]);
  }

  lemma SeenRest<R>(d: Decoder<R>, lines: seq<Bytes>, first: nat, i: nat, newer: seq<R>)
    requires first <= i <= |lines|
    ensures Seen(d, lines, first, newer) == Records(d, lines[first..i]) + Seen(d, lines, i, newer)
  {
    assert lines[first..] == lines[first..i] + lines[i..];
    RecordsConcat(d, lines[first..i], lines[i..]);
  }

  /** Adds the records of lines `first..` newest first, until `n` are collected. */
  method Collect<R>(d: Decoder<R>, lines: seq<Bytes>, first: nat, n: int, out: seq<R>, ghost newer: seq<R>)
    returns (out': seq<R>)
    requires first <= |lines| && out == Newest(newer, n)
    ensures out' == Newest(Seen(d, lines, first, newer), n)
  {
    hide Seen, Newest, Kept;
    out' := out;
    var i := |lines|;
    SeenNone(d, lines, newer);
    while i > first && |out'| < n
      invariant first <= i <= |lines|
      invariant out' == Newest(Seen(d, lines, i, newer), n)
    {
      i := i - 1;
      var r := Kept(d, lines[i]);
      SeenOne(d, lines, i, newer);
      ghost var seen := Seen(d, lines, i + 1, newer);
      if r.Some? {
        NewestGrows([r.value], seen, n);
        out' := out' + [r.value];
      } else {
        assert [] + seen == seen;
      }
    }
    if i > first {
      SeenRest(d, lines, first, i, newer);
      NewestEnough(Records(d, lines[first..i]), Seen(d, lines, i, newer), n);
    }
  }

  /** The last `n` records, newest first. */
  function Newest<T>(s: seq<T>, n: int): seq<T> {
    Flip(LastN(s, n))
  }

  lemma NewestGrows<T>(x: seq<T>, s: seq<T>, n: int)
    requires |x| == 1 && |Newest(s, n)| < n
    ensures Newest(x + s, n) == Newest(s, n) + x
  {
  }

  lemma NewestEnough<T>(older: seq<T>, s: seq<T>, n: int)
    requires |Newest(s, n)| >= n
    ensures Newest(older + s, n) == Newest(s, n)
  {
    if n > 0 {
      LastNGrows(older, s, n);
    }
  }

  method ReverseInPlace<R>(a: array<R>)
    modifies a
    ensures a[..] == Flip(old(a[..]))
  {
    var lo, hi := 0, a.Length;
    while lo + 1 < hi
      invariant 0 <= lo <= hi <= a.Length && lo + hi == a.Length
      invariant forall k :: 0 <= k < a.Length ==> a[k] == if lo <= k < hi then old(a[k]) else old(a[a.Length - 1 - k])
    {
      hi := hi - 1;
      a[lo], a[hi] := a[hi], a[lo];
      lo := lo + 1;
    }
  }

  /** One block of the scan, unfolded. */
  lemma ScanBlock<R>(d: Decoder<R>, p: Bytes, carry: Bytes, chunk: nat)
    requires chunk >= 1 && p != []
    ensures var off := |p| - BlockSize(|p|, chunk);
            var ls := Split(p[off..] + carry);
            var carry' := if |ls[0]| > 4 * chunk then [] else ls[0];
            Records(d, Scan(p, carry, chunk)) ==
            if off == 0 then Records(d, ls) else Records(d, Scan(p[..off], carry', chunk)) + Records(d, ls[1..])
  {
    var off := |p| - BlockSize(|p|, chunk);
    var ls := Split(p[off..] + carry);
    if off > 0 {
      RecordsConcat(d, Scan(p[..off], if |ls[0]| > 4 * chunk then [] else ls[0], chunk), ls[1..]);
    }
  }

  /** What is still to come from the unread part, and what has been seen, make up everything. */
  ghost predicate Accounted<R>(d: Decoder<R>, file: Bytes, off: nat, carry: Bytes, chunk: nat, newer: seq<R>)
    requires chunk >= 1 && off <= |file|
  {
    Records(d, Scan(file, [], chunk)) == Records(d, Scan(file[..off], carry, chunk)) + newer
  }

  lemma AccountedStart<R>(d: Decoder<R>, file: Bytes, chunk: nat)
    requires chunk >= 1
    ensures Accounted(d, file, |file|, [], chunk, [])
  {
    assert file[..|file|] == file;
  }

  lemma AccountedFirst<R>(d: Decoder<R>, file: Bytes, off: nat, carry: Bytes, chunk: nat, newer: seq<R>)
    requires chunk >= 1 && 0 < off <= |file| && BlockSize(off, chunk) == off
    requires Accounted(d, file, off, carry, chunk, newer)
    ensures Accounted(d, file, 0, carry, chunk, Seen(d, Split(file[..off] + carry), 0, newer))
  {
    hide Split;
    var p := file[..off];
    assert p[0..] == p;
    ScanBlock(d, p, carry, chunk);
    var ls := Split(p + carry);
    hide Records;
    assert Records(d, Scan(p, carry, chunk)) == Records(d, ls);
    assert ls[0..] == ls;
    RecordsNone(d);
    assert Records(d, Scan(file[..0], carry, chunk)) == [];
    assert [] + (Records(d, ls) + newer) == Records(d, ls) + newer;
  }

  lemma RecordsNone<R>(d: Decoder<R>)
    ensures Records(d, []) == []
  {
  }

  lemma AccountedEarlier<R>(d: Decoder<R>, file: Bytes, off: nat, carry: Bytes, chunk: nat, newer: seq<R>)
    requires chunk >= 1 && off <= |file| && BlockSize(off, chunk) < off
    requires Accounted(d, file, off, carry, chunk, newer)
    ensures var at := off - BlockSize(off, chunk);
            var ls := Split(file[at..off] + carry);
            Accounted(d, file, at, if |ls[0]| > 4 * chunk then [] else ls[0], chunk, Seen(d, ls, 1, newer))
  {
    hide Records, Scan, Split;
    var p, at := file[..off], off - BlockSize(off, chunk);
    assert p[at..] == file[at..off] && p[..at] == file[..at];
    ScanBlock(d, p, carry, chunk);
    var ls := Split(file[at..off] + carry);
    Regroup(Records(d, Scan(file[..at], if |ls[0]| > 4 * chunk then [] else ls[0], chunk)), Records(d, ls[1..]), newer);
  }

  lemma Regroup<T>(a: seq<T>, b: seq<T>, c: seq<T>)
    ensures (a + b) + c == a + (b + c)
  {
  }

  lemma AccountedBlock<R>(d: Decoder<R>, file: Bytes, off: nat, sz: nat, carry: Bytes, chunk: nat, newer: seq<R>)
    requires chunk >= 1 && 0 < off <= |file| && sz == BlockSize(off, chunk)
    requires Accounted(d, file, off, carry, chunk, newer)
    ensures var ls := Split(file[off - sz..off] + carry);
            var carry' := if off == sz then carry else if |ls[0]| > 4 * chunk then [] else ls[0];
            Accounted(d, file, off - sz, carry', chunk, Seen(d, ls, if off == sz then 0 else 1, newer))
  {
    hide Accounted, Seen, Split;
    if off == sz {
      assert file[off - sz..off] == file[..off];
      AccountedFirst(d, file, off, carry, chunk, newer);
    } else {
      AccountedEarlier(d, file, off, carry, chunk, newer);
    }
  }

  lemma AccountedEnd<R>(d: Decoder<R>, file: Bytes, off: nat, carry: Bytes, chunk: nat, newer: seq<R>, n: int)
    requires chunk >= 1 && off <= |file| && Accounted(d, file, off, carry, chunk, newer)
    requires off == 0 || |Newest(newer, n)| >= n
    ensures Newest(newer, n) == Newest(Records(d, Scan(file, [], chunk)), n)
  {
    if off > 0 {
      NewestEnough(Records(d, Scan(file[..off], carry, chunk)), newer, n);
    } else {
      assert Records(d, Scan(file, [], chunk)) == newer;
    }
  }

  lemma TailUnfolds<R>(d: Decoder<R>, file: Bytes, n: int)
    ensures Tail(d, file, n) == LastN(Records(d, Split(file)), n)
  {
  }

  // ----- which lines the records come from -----

  /** The line is not blank once trimmed, parses, and its record is older than the cutoff. */
  predicate Qualifies<R>(d: Decoder<R>, line: Bytes) {
    var text := d.trim(line);
    text != [] && d.parse(text).Some? && d.older(d.parse(text).value)
  }

  /** The line qualifies, and `r` is the parse of its trimmed text. */
  ghost predicate Gives<R>(d: Decoder<R>, line: Bytes, r: R) {
    Qualifies(d, line) && r == d.parse(d.trim(line)).value
  }

  predicate Increasing(ks: seq<nat>, bound: nat) {
    (forall k :: 0 <= k < |ks| ==> ks[k] < bound) && forall k, l :: 0 <= k < l < |ks| ==> ks[k] < ks[l]
  }

  /** Record number `k` is the parse of the trimmed line number `ks[k]`, which qualifies. */
  ghost predicate ComeFrom<R>(d: Decoder<R>, lines: seq<Bytes>, records: seq<R>, ks: seq<nat>) {
    && |records| == |ks| && Increasing(ks, |lines|)
    && forall k :: 0 <= k < |ks| ==> Gives(d, lines[ks[k]], records[k])
  }

  /** The records come from the last `n` qualifying lines: every other one stands before all of them, and there
      is another one only if `n` records were returned. */
  ghost predicate AreLast<R>(d: Decoder<R>, lines: seq<Bytes>, n: int, records: seq<R>, ks: seq<nat>) {
    && ComeFrom(d, lines, records, ks) && (n >= 0 ==> |records| <= n) && (n < 0 ==> records == [])
    && forall i :: 0 <= i < |lines| && Qualifies(d, lines[i]) && i !in ks ==>
         |records| >= n && (ks != [] ==> i < ks[0])
  }

  lemma KeptMeans<R>(d: Decoder<R>, line: Bytes)
    ensures Kept(d, line) == if Qualifies(d, line) then Some(d.parse(d.trim(line)).value) else None
  {
  }

  /** Every qualifying line is listed. */
  predicate Complete<R>(d: Decoder<R>, lines: seq<Bytes>, ks: seq<nat>) {
    forall i :: 0 <= i < |lines| && Qualifies(d, lines[i]) ==> i in ks
  }

  lemma OneMoreLine<R>(d: Decoder<R>, lines: seq<Bytes>, line: Bytes, records: seq<R>, ks: seq<nat>)
    requires ComeFrom(d, lines, records, ks) && Complete(d, lines, ks)
    ensures if Qualifies(d, line) then
              && ComeFrom(d, lines + [line], records + [d.parse(d.trim(line)).value], ks + [|lines|])
              && Complete(d, lines + [line], ks + [|lines|])
            else ComeFrom(d, lines + [line], records, ks) && Complete(d, lines + [line], ks)
  {
    var all := lines + [line];
    assert all[|lines|] == line && forall i :: 0 <= i < |lines| ==> all[i] == lines[i];
    if Qualifies(d, line) {
      hide Qualifies;
      var js := ks + [|lines|];
      assert js[|ks|] == |lines|;
      assert forall i :: i in ks ==> i in js;
    }
  }

  /** The records of a list of lines come from all its qualifying lines. */
  lemma {:induction false} RecordsComeFrom<R>(d: Decoder<R>, lines: seq<Bytes>) returns (ks: seq<nat>)
    ensures ComeFrom(d, lines, Records(d, lines), ks) && Complete(d, lines, ks)
    decreases |lines|
  {
    ks := [];
    if lines != [] {
      var init, line := lines[..|lines| - 1], lines[|lines| - 1];
      assert lines == init + [line];
      ks := RecordsComeFrom(d, init);
      KeptMeans(d, line);
      hide ComeFrom, Complete, Qualifies, Kept;
      OneMoreLine(d, init, line, Records(d, init), ks);
      if Qualifies(d, line) {
        ks := ks + [|init|];
      } else {
        assert Records(d, lines) == Records(d, init);
      }
    }
  }

  lemma SuffixComesFrom<R>(d: Decoder<R>, lines: seq<Bytes>, all: seq<R>, js: seq<nat>, cut: nat)
    requires ComeFrom(d, lines, all, js) && cut <= |js|
    ensures ComeFrom(d, lines, all[cut..], js[cut..])
  {
    hide Gives;
    var ks, records := js[cut..], all[cut..];
    forall k | 0 <= k < |ks| ensures Gives(d, lines[ks[k]], records[k]) {
      assert ks[k] == js[cut + k] && records[k] == all[cut + k];
    }
    forall k, l | 0 <= k < l < |ks| ensures ks[k] < ks[l] {
      assert ks[k] == js[cut + k] && ks[l] == js[cut + l];
    }
  }

  /** A position that is not among the last ones of an increasing list is one of the first ones. */
  lemma NotAmongLast(js: seq<nat>, bound: nat, cut: nat, i: nat)
    requires Increasing(js, bound) && cut <= |js| && i in js && i !in js[cut..]
    ensures cut > 0 && (cut < |js| ==> i < js[cut])
  {
    forall j | cut <= j < |js| ensures js[j] in js[cut..] {
      assert js[cut..][j - cut] == js[j];
    }
    var j :| 0 <= j < |js| && js[j] == i;
    assert j < cut;
  }

  /** How many elements of a list of `len` stand before its last `n`. */
  function Earlier(len: nat, n: int): (cut: nat)
    ensures cut <= len
  {
    if n <= 0 then len else if len <= n then 0 else len - n
  }

  lemma LastNIsSuffix<T>(s: seq<T>, n: int)
    ensures LastN(s, n) == s[Earlier(|s|, n)..]
  {
  }

  lemma LastNComeFrom<R>(d: Decoder<R>, lines: seq<Bytes>, all: seq<R>, n: int, js: seq<nat>)
    requires ComeFrom(d, lines, all, js) && Complete(d, lines, js)
    ensures AreLast(d, lines, n, LastN(all, n), LastN(js, n))
  {
    var cut := Earlier(|js|, n);
    var ks, records := js[cut..], all[cut..];
    SuffixComesFrom(d, lines, all, js, cut);
    LastNIsSuffix(js, n);
    LastNIsSuffix(all, n);
    assert |ks| == |js| - cut == |records| && (ks != [] ==> ks[0] == js[cut]);
    forall i | 0 <= i < |lines| && Qualifies(d, lines[i]) && i !in ks
      ensures |records| >= n && (ks != [] ==> i < ks[0])
    {
      NotAmongLast(js, |lines|, cut, i);
    }
    hide ComeFrom, Complete, Qualifies, LastN;
  }

  /** What the reader returns, said of the lines themselves. */
  lemma TailComesFrom<R>(d: Decoder<R>, lines: seq<Bytes>, n: int)
    ensures exists ks :: AreLast(d, lines, n, LastN(Records(d, lines), n), ks)
  {
    var js := RecordsComeFrom(d, lines);
    LastNComeFrom(d, lines, Records(d, lines), n, js);
  }

  /** The lines, each but the last followed by the newline byte. */
  function Joined(ls: seq<Bytes>): Bytes {
    if ls == [] then [] else if |ls| == 1 then ls[0] else ls[0] + [10] + Joined(ls[1..])
  }

  /** Splitting cuts at the newline bytes and nowhere else. */
  lemma {:induction false} SplitMeans(s: Bytes)
    ensures Joined(Split(s)) == s && forall i :: 0 <= i < |Split(s)| ==> 10 !in Split(s)[i]
  {
    if s != [] {
      var r := Split(s[1..]);
      SplitMeans(s[1..]);
      assert s == [s[0]] + s[1..];
      if s[0] == 10 {
        assert Split(s)[1..] == r;
      } else {
        assert Split(s)[1..] == r[1..];
        assert Joined(Split(s)) == [s[0]] + Joined(r);
      }
    }
  }

  /** Reads fixed-size blocks backwards from the end, carrying the partial first line of each block
      over to the next, until `n` records match or the file start is reached. */
  method TailDecisions<R(0)>(d: Decoder<R>, file: Bytes, n: int, chunk: nat) returns (records: seq<R>)
    requires chunk >= 1
    ensures records == LastN(Records(d, Scan(file, [], chunk)), n)
    ensures d.trim([]) == [] && ShortRuns(file, chunk) ==> records == Tail(d, file, n)
    ensures exists ks :: AreLast(d, Scan(file, [], chunk), n, records, ks)
    ensures d.trim([]) == [] && ShortRuns(file, chunk) ==> exists ks :: AreLast(d, Split(file), n, records, ks)
  {
    hide AreLast;
    hide Accounted, Seen, Records, Scan, ShortRuns, Tail;
    var out: seq<R> := [];
    var carry: Bytes := [];
    var off := |file|;
    ghost var newer: seq<R> := [];
    AccountedStart(d, file, chunk);
    while off > 0 && |out| < n
      invariant 0 <= off <= |file|
      invariant out == Newest(newer, n)
      invariant Accounted(d, file, off, carry, chunk, newer)
    {
      var sz := if off < chunk then off else chunk;
      AccountedBlock(d, file, off, sz, carry, chunk, newer);
      off := off - sz;
      var buf := file[off..off + sz] + carry;
      var lines := Split(buf);
      var first := 0;
      if off > 0 {
        carry := lines[0];
        first := 1;
        if |carry| > 4 * chunk {
          carry := [];
        }
      }
      out := Collect(d, lines, first, n, out, newer);
      newer := Seen(d, lines, first, newer);
    }
    AccountedEnd(d, file, off, carry, chunk, newer, n);
    var a := new R[|out|](i requires 0 <= i < |out| => out[i]);
    assert a[..] == out;
    ReverseInPlace(a);
    records := a[..];
    TailComesFrom(d, Scan(file, [], chunk), n);
    if d.trim([]) == [] && ShortRuns(file, chunk) {
      TailIsForward(d, file, n, chunk);
      TailComesFrom(d, Split(file), n);
      assert Tail(d, file, n) == LastN(Records(d, Split(file)), n) by {
        TailUnfolds(d, file, n);
      }
    }
  }

  /** The promise is kept whenever no line exceeds four chunks (and, more exactly, whenever no run
      longer than that starts at a block boundary): the blank line of an empty file aside, the
      backward read returns what splitting the whole file would. */
  lemma TailIsForward<R>(d: Decoder<R>, file: Bytes, n: int, chunk: nat)
    requires chunk >= 1 && d.trim([]) == [] && ShortRuns(file, chunk)
    ensures LastN(Records(d, Scan(file, [], chunk)), n) == Tail(d, file, n)
  {
    if file == [] {
      RecordsOne(d, []);
    } else {
      WholeFileExact(file, chunk);
    }
  }

  /** The decoder that keeps every line that is not empty, as it is. */
  function Verbatim(): Decoder<Bytes> {
    Decoder(line => line, line => Some(line), line => true)
  }

  function Total(ls: seq<Bytes>): nat {
    if ls == [] then 0 else Total(ls[..|ls| - 1]) + |ls[|ls| - 1]|
  }

  lemma {:induction false} VerbatimKeepsText(ls: seq<Bytes>)
    ensures Total(Records(Verbatim(), ls)) == Total(ls) && |Records(Verbatim(), ls)| <= |ls|
  {
    if ls != [] {
      var line := ls[|ls| - 1];
      VerbatimKeepsText(ls[..|ls| - 1]);
      var earlier := Records(Verbatim(), ls[..|ls| - 1]);
      if line != [] {
        assert (earlier + [line])[..|earlier|] == earlier;
      } else {
        assert earlier + [] == earlier;
      }
    }
  }

  lemma {:induction false} PrefixesShorter(s: seq<Bytes>, t: seq<Bytes>)
    requires Prefixes(s, t)
    ensures Total(s) <= Total(t) && (Total(s) == Total(t) ==> s == t)
  {
    if s != [] {
      var x, y := s[|s| - 1], t[|t| - 1];
      assert x <= y && (|x| == |y| ==> x == y);
      PrefixesShorter(s[..|s| - 1], t[..|t| - 1]);
      assert s == s[..|s| - 1] + [s[|s| - 1]] && t == t[..|t| - 1] + [t[|t| - 1]];
    }
  }

  lemma {:induction false} SplitCount(s: Bytes)
    ensures |Split(s)| <= |s| + 1
  {
    if s != [] {
      SplitCount(s[1..]);
    }
  }

  /** The condition is exact: the backward read keeps the promise for the lines of a file as they are
      if and only if no newline-free run of more than four chunks starts at a block boundary. */
  lemma TailIsForwardIff(file: Bytes, chunk: nat)
    requires chunk >= 1
    ensures ShortRuns(file, chunk) <==>
            forall n :: LastN(Records(Verbatim(), Scan(file, [], chunk)), n) == Tail(Verbatim(), file, n)
  {
    if ShortRuns(file, chunk) {
      forall n ensures LastN(Records(Verbatim(), Scan(file, [], chunk)), n) == Tail(Verbatim(), file, n) {
        TailIsForward(Verbatim(), file, n, chunk);
      }
    } else {
      DroppedLosesText(file, chunk);
    }
  }

  lemma DroppedLosesText(file: Bytes, chunk: nat)
    requires chunk >= 1 && !ShortRuns(file, chunk)
    ensures var n := |file| + 1;
            LastN(Records(Verbatim(), Scan(file, [], chunk)), n) != Tail(Verbatim(), file, n)
  {
    hide Records, Total;
    assert file != [] && file + [] == file;
    WholeFileExact(file, chunk);
    ScanOnlyShortens(file, [], chunk);
    var s, t := Scan(file, [], chunk), Split(file);
    PrefixesShorter(s, t);
    SplitCount(file);
    VerbatimKeepsText(s);
    VerbatimKeepsText(t);
  }

  /** The decoder that understands one line only. */
  function Only(line: Bytes): Decoder<Bytes> {
    Decoder(l => l, l => if l == line then Some(l) else None, l => true)
  }

  /** A record on a line of more than five chunks is lost, although the line parses. */
  lemma LongRecordLost(line: Bytes, chunk: nat)
    requires chunk >= 1 && OneLine(line) && |line| > 5 * chunk
    ensures Tail(Only(line), line, 1) == [line]
    ensures LastN(Records(Only(line), Scan(line, [], chunk)), 1) == []
  {
    hide Records, Scan, Split;
    SplitOneLine(line);
    assert [] + line + [] == line && line + [] == line;
    LongLineCut([], line, [], chunk);
    ScanOnlyShortens(line, [], chunk);
    var cut := Scan(line, [], chunk)[0];
    assert Scan(line, [], chunk) == [cut] && cut != line;
    RecordsOne(Only(line), line);
    RecordsOne(Only(line), cut);
  }
}
