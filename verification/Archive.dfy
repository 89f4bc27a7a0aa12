/** The archiver src/bin/ar/ar.c: the symbol table with its offsets, the writer
    and the reader. The format is "Archive File" in chapter 7 of the System V
    ABI, edition 4.1. */
module Archive {

  import opened Basics
  import opened PointerPage

  const HEADER_SIZE := 60
  const MAGIC: seq<byte> := [0x21, 0x3C, 0x61, 0x72, 0x63, 0x68, 0x3E, 0x0A]
  const SPACE: byte := 0x20
  const SLASH: byte := 0x2F
  const BACKSLASH: byte := 0x5C
  const ZERO_DIGIT: byte := 0x30

  datatype Entry = Entry(header: seq<byte>, contents: seq<byte>)

  // ----- the written form ------------------------------------------------------------

  function Padded(n: nat): nat {
    if n % 2 == 1 then n + 1 else n
  }

  function Padding(n: nat): seq<byte> {
    if n % 2 == 1 then [0] else []
  }

  predicate Formed(e: Entry) {
    |e.header| == HEADER_SIZE
  }

  function EntryBytes(e: Entry): seq<byte> {
    e.header + e.contents + Padding(|e.contents|)
  }

  function Body(es: seq<Entry>): seq<byte> {
    if es == [] then [] else EntryBytes(es[0]) + Body(es[1..])
  }

  function File(es: seq<Entry>): seq<byte> {
    MAGIC + Body(es)
  }

  lemma {:induction false} BodyAppend(a: seq<Entry>, b: seq<Entry>)
    ensures Body(a + b) == Body(a) + Body(b)
  {
    if a == [] {
      assert a + b == b;
    } else {
      hide EntryBytes;
      BodyAppend(a[1..], b);
      assert (a + b)[1..] == a[1..] + b;
      Associate(EntryBytes(a[0]), Body(a[1..]), Body(b));
    }
  }

  lemma BodySnoc(es: seq<Entry>, i: nat)
    requires i < |es|
    ensures Body(es[..i + 1]) == Body(es[..i]) + EntryBytes(es[i])
  {
    BodyAppend(es[..i], [es[i]]);
    assert es[..i + 1] == es[..i] + [es[i]];
    assert [es[i]][1..] == [];
    assert Body([es[i]]) == EntryBytes(es[i]) + [] == EntryBytes(es[i]);
  }

  /** Where entry i starts: behind the magic and the earlier entries. */
  function Position(es: seq<Entry>, i: nat): nat
    requires i <= |es|
  {
    8 + |Body(es[..i])|
  }

  lemma PositionStep(es: seq<Entry>, i: nat)
    requires i < |es| && forall j :: 0 <= j < |es| ==> Formed(es[j])
    ensures Position(es, i + 1) == Position(es, i) + HEADER_SIZE + Padded(|es[i].contents|)
    ensures Position(es, 0) == 8
  {
    BodySnoc(es, i);
  }

  /** Entries start at even places, with at most one byte of padding in between. */
  lemma {:induction false} EvenPositions(es: seq<Entry>, i: nat)
    requires i <= |es| && forall j :: 0 <= j < |es| ==> Formed(es[j])
    ensures Position(es, i) % 2 == 0
    ensures i > 0 ==> var end := Position(es, i - 1) + HEADER_SIZE + |es[i - 1].contents|;
                      Position(es, i) == end || Position(es, i) == end + 1
  {
    if i > 0 {
      EvenPositions(es, i - 1);
      PositionStep(es, i - 1);
    } else {
      assert es[..0] == [];
    }
  }

  /** At its position, the file holds the entry's header and contents. */
  lemma EntryAtPosition(es: seq<Entry>, i: nat)
    requires i < |es| && Formed(es[i])
    ensures Position(es, i) + |EntryBytes(es[i])| <= |File(es)|
    ensures var p := Position(es, i);
      && File(es)[p..p + HEADER_SIZE] == es[i].header
      && File(es)[p + HEADER_SIZE..p + HEADER_SIZE + |es[i].contents|] == es[i].contents
  {
    hide Body, EntryBytes;
    var pre, e, post := MAGIC + Body(es[..i]), es[i], Body(es[i + 1..]);
    FileAround(es, i);
    Inside(pre, e, post);
  }

  lemma FileAround(es: seq<Entry>, i: nat)
    requires i < |es|
    ensures File(es) == (MAGIC + Body(es[..i])) + EntryBytes(es[i]) + Body(es[i + 1..])
  {
    hide Body, EntryBytes;
    BodyAppend(es[..i + 1], es[i + 1..]);
    BodySnoc(es, i);
    assert es == es[..i + 1] + es[i + 1..];
    var a, b, c := Body(es[..i]), EntryBytes(es[i]), Body(es[i + 1..]);
    assert MAGIC + ((a + b) + c) == (MAGIC + a) + b + c;
  }

  lemma Inside(pre: seq<byte>, e: Entry, post: seq<byte>)
    requires Formed(e)
    ensures |EntryBytes(e)| == HEADER_SIZE + Padded(|e.contents|)
    ensures var f := pre + EntryBytes(e) + post;
      && f[|pre|..|pre| + HEADER_SIZE] == e.header
      && f[|pre| + HEADER_SIZE..|pre| + HEADER_SIZE + |e.contents|] == e.contents
  {}

  // ----- the size field ------------------------------------------------------------------

  function Decimal(n: nat): (r: seq<byte>)
    ensures |r| > 0 && (n > 0 ==> r[0] != ZERO_DIGIT)
    decreases n
  {
    if n < 10 then [ZERO_DIGIT + n] else Decimal(n / 10) + [ZERO_DIGIT + n % 10]
  }

  function Spaces(n: nat): (r: seq<byte>)
    ensures |r| == n && forall i :: 0 <= i < n ==> r[i] == SPACE
  {
    seq<byte>(n, _ => SPACE)
  }

  function DigitOf(b: byte): int {
    if 0x30 <= b <= 0x39 then b - 0x30 else
    if 0x61 <= b <= 0x7A then b - 0x61 + 10 else
    if 0x41 <= b <= 0x5A then b - 0x41 + 10 else 99
  }

  /** The digits of s in the given base, up to the first other byte. */
  function Digits(s: seq<byte>, base: nat, value: nat): nat
    requires base <= 16
    decreases |s|
  {
    if s == [] || DigitOf(s[0]) >= base then value else
    Digits(s[1..], base, value * base + DigitOf(s[0]))
  }

  predicate IsSpace(b: byte) {
    b == SPACE || 9 <= b <= 13
  }

  /** strtol with base 0, on text without a sign: 0x means hexadecimal and a
      leading 0 means octal. */
  function Strtol(s: seq<byte>): nat
    decreases |s|
  {
    if s == [] then 0 else
    if IsSpace(s[0]) then Strtol(s[1..]) else
    if s[0] != ZERO_DIGIT then Digits(s, 10, 0) else
    if |s| > 2 && (s[1] == 0x78 || s[1] == 0x58) && DigitOf(s[2]) < 16 then Digits(s[2..], 16, 0) else
    Digits(s, 8, 0)
  }

  /** Reading the decimal text of n leaves the value n in front of the rest. */
  lemma {:induction false} DigitsThen(n: nat, rest: seq<byte>)
    ensures Digits(Decimal(n) + rest, 10, 0) == Digits(rest, 10, n)
    decreases n
  {
    if n < 10 {
      var s := Decimal(n) + rest;
      assert s[1..] == rest;
    } else {
      var d: byte := ZERO_DIGIT + n % 10;
      DigitsThen(n / 10, [d] + rest);
      assert Decimal(n) + rest == Decimal(n / 10) + ([d] + rest);
      assert ([d] + rest)[1..] == rest;
    }
  }

  /** A decimal size followed by blanks reads as itself, 0 included. */
  lemma SizeRoundTrip(n: nat, blanks: nat)
    ensures Strtol(Decimal(n) + Spaces(blanks)) == n
  {
    var s := Decimal(n) + Spaces(blanks);
    assert blanks > 0 ==> Spaces(blanks)[0] == SPACE;
    if n == 0 {
      assert s[0] == ZERO_DIGIT && s[1..] == Spaces(blanks);
      assert Digits(s, 8, 0) == Digits(s[1..], 8, 0) == 0;
    } else {
      DigitsThen(n, Spaces(blanks));
      FirstDigit(n);
    }
  }

  lemma {:induction false} FirstDigit(n: nat)
    requires n > 0
    ensures ZERO_DIGIT < Decimal(n)[0] <= 0x39
    decreases n
  {
    if n >= 10 { FirstDigit(n / 10); }
  }

  function LeadingZeros(k: nat): (r: seq<byte>)
    ensures |r| == k && forall i :: 0 <= i < k ==> r[i] == ZERO_DIGIT
  {
    seq<byte>(k, _ => ZERO_DIGIT)
  }

  /** All decimal digits of n are octal digits. */
  predicate OctalDigits(n: nat) {
    if n < 10 then n < 8 else OctalDigits(n / 10) && n % 10 < 8
  }

  /** The decimal digits of n up to the first 8 or 9, read in base 8. */
  function OctalValue(n: nat): (v: nat)
    ensures v <= n && (v == n <==> n < 8)
  {
    if n < 10 then (if n < 8 then n else 0) else
    if OctalDigits(n) then 8 * OctalValue(n / 10) + n % 10 else OctalValue(n / 10)
  }

  lemma {:induction false} OctalThen(n: nat, rest: seq<byte>)
    ensures Digits(Decimal(n) + rest, 8, 0) ==
            if OctalDigits(n) then Digits(rest, 8, OctalValue(n)) else OctalValue(n)
    decreases n
  {
    if n < 10 {
      var s := Decimal(n) + rest;
      assert s[1..] == rest;
    } else {
      var d: byte := ZERO_DIGIT + n % 10;
      OctalThen(n / 10, [d] + rest);
      assert Decimal(n) + rest == Decimal(n / 10) + ([d] + rest);
      assert ([d] + rest)[1..] == rest;
    }
  }

  lemma {:induction false} ZerosSkipped(k: nat, s: seq<byte>)
    ensures Digits(LeadingZeros(k) + s, 8, 0) == Digits(s, 8, 0)
  {
    if k == 0 {
      assert LeadingZeros(k) + s == s;
    } else {
      ZerosSkipped(k - 1, s);
      assert (LeadingZeros(k) + s)[1..] == LeadingZeros(k - 1) + s;
    }
  }

  /** A size field with zeros in front is read as octal, so it reads as the number
      printed exactly if that has one octal digit. */
  lemma ZeroPadded(k: nat, n: nat, blanks: nat)
    ensures Strtol(LeadingZeros(k) + (Decimal(n) + Spaces(blanks))) == (if k == 0 then n else OctalValue(n))
    ensures Strtol(LeadingZeros(k) + (Decimal(n) + Spaces(blanks))) == n <==> k == 0 || n < 8
  {
    var rest := Decimal(n) + Spaces(blanks);
    if k == 0 {
      assert LeadingZeros(k) + rest == rest;
      SizeRoundTrip(n, blanks);
    } else {
      ZerosSkipped(k, rest);
      OctalThen(n, Spaces(blanks));
      if n > 0 { FirstDigit(n); }
    }
  }

  /** For example, 010 reads as 8. */
  lemma LeadingZeroIsOctal()
    ensures Strtol([0x30, 0x31, 0x30]) == 8
  {
    var s: seq<byte> := [0x30, 0x31, 0x30];
    assert s[1..] == [0x31, 0x30] && s[1..][1..] == [0x30] && s[1..][1..][1..] == [];
    assert Digits(s, 8, 0) == Digits(s[1..], 8, 0) == Digits(s[1..][1..], 8, 1) == Digits(s[1..][1..][1..], 8, 8);
  }

  function SizeField(h: seq<byte>): nat
    requires |h| == HEADER_SIZE
  {
    Strtol(h[48..58])
  }

  // ----- reading -----------------------------------------------------------------------------

  /** A string less its trailing blanks. */
  function Trim(s: seq<byte>): (r: seq<byte>)
    ensures |r| <= |s| && s == r + Spaces(|s| - |r|) && (r != [] ==> r[|r| - 1] != SPACE)
  {
    if s != [] && s[|s| - 1] == SPACE then Trim(s[..|s| - 1]) else s
  }

  /** The bytes before the first NUL. */
  function Head(s: seq<byte>): (r: seq<byte>)
    ensures |r| <= |s| && r == s[..|r|] && 0 !in r && (|r| < |s| ==> s[|r|] == 0)
  {
    if s == [] || s[0] == 0 then [] else [s[0]] + Head(s[1..])
  }

  /** The name in a header, as a C string. */
  function NameOf(h: seq<byte>): seq<byte>
    requires |h| == HEADER_SIZE
  {
    Head(Trim(h[..16]))
  }

  predicate NamesTable(h: seq<byte>)
    requires |h| == HEADER_SIZE
  {
    NameOf(h) == [SLASH]
  }

  function Members(es: seq<Entry>): seq<Entry>
    requires forall i :: 0 <= i < |es| ==> Formed(es[i])
  {
    if es == [] then [] else
    assert Formed(es[0]);
    (if NamesTable(es[0].header) then [] else [es[0]]) + Members(es[1..])
  }

  /** read_archive_file from a position on; None where it reports an error. */
  function ReadFrom(f: seq<byte>, pos: nat): Option<seq<Entry>>
    decreases |f| - pos
  {
    if pos >= |f| then Some([]) else
    if pos + HEADER_SIZE > |f| then None else
    var h := f[pos..pos + HEADER_SIZE];
    var size := SizeField(h);
    var start := pos + HEADER_SIZE;
    var keep := !NamesTable(h);
    if keep && start + size > |f| then None else
    match ReadFrom(f, start + Padded(size))
    case None => None
    case Some(rest) => Some((if keep then [Entry(h, f[start..start + size])] else []) + rest)
  }

  /** A whole header at a position, and contents that end in the file unless they are
      skipped. */
  predicate WholeAt(f: seq<byte>, p: nat) {
    && p + HEADER_SIZE <= |f|
    && var h := f[p..p + HEADER_SIZE]; NamesTable(h) || p + HEADER_SIZE + SizeField(h) <= |f|
  }

  /** The positions that a reader visits: each header at the even place behind the
      contents announced by the one before, until the end of the file. */
  ghost predicate Walk(f: seq<byte>, ps: seq<nat>) {
    && |ps| > 0 && ps[|ps| - 1] >= |f|
    && forall k :: 0 <= k < |ps| - 1 ==>
         && WholeAt(f, ps[k])
         && ps[k + 1] == ps[k] + HEADER_SIZE + Padded(SizeField(f[ps[k]..ps[k] + HEADER_SIZE]))
  }

  /** The entries at these positions, without symbol tables. */
  ghost function EntriesAt(f: seq<byte>, ps: seq<nat>): seq<Entry>
    requires forall k :: 0 <= k < |ps| ==> WholeAt(f, ps[k])
  {
    if ps == [] then [] else
    assert WholeAt(f, ps[0]);
    var h, start := f[ps[0]..ps[0] + HEADER_SIZE], ps[0] + HEADER_SIZE;
    (if NamesTable(h) then [] else [Entry(h, f[start..start + SizeField(h)])]) + EntriesAt(f, ps[1..])
  }

  lemma {:induction false} WalkRead(f: seq<byte>, ps: seq<nat>)
    requires Walk(f, ps)
    ensures ReadFrom(f, ps[0]) == Some(EntriesAt(f, ps[..|ps| - 1]))
    decreases |ps|
  {
    hide NamesTable, Strtol, Padded;
    if |ps| > 1 {
      assert WholeAt(f, ps[0]);
      assert Walk(f, ps[1..]);
      WalkRead(f, ps[1..]);
      assert ps[..|ps| - 1][1..] == ps[1..][..|ps| - 2];
    }
  }

  lemma {:induction false} ReadWalk(f: seq<byte>, pos: nat) returns (ps: seq<nat>)
    requires ReadFrom(f, pos).Some?
    ensures Walk(f, ps) && ps[0] == pos
    decreases |f| - pos
  {
    hide NamesTable, Strtol, Padded;
    if pos >= |f| { return [pos]; }
    var next := pos + HEADER_SIZE + Padded(SizeField(f[pos..pos + HEADER_SIZE]));
    var more := ReadWalk(f, next);
    ps := [pos] + more;
    forall k | 0 <= k < |ps| - 1
      ensures WholeAt(f, ps[k])
      ensures ps[k + 1] == ps[k] + HEADER_SIZE + Padded(SizeField(f[ps[k]..ps[k] + HEADER_SIZE]))
    {
      if k > 0 { assert more[k - 1] == ps[k]; }
    }
  }

  /** Any file is read if and only if it is such a series of entries, and then as the
      entries in it. */
  lemma ReadExactly(f: seq<byte>)
    ensures ReadFrom(f, 8).Some? <==> exists ps :: Walk(f, ps) && ps[0] == 8
    ensures forall ps :: Walk(f, ps) && ps[0] == 8 ==> ReadFrom(f, 8) == Some(EntriesAt(f, ps[..|ps| - 1]))
  {
    hide EntriesAt, ReadFrom, WholeAt;
    forall ps | Walk(f, ps) && ps[0] == 8 ensures ReadFrom(f, 8) == Some(EntriesAt(f, ps[..|ps| - 1])) {
      WalkRead(f, ps);
    }
    if ReadFrom(f, 8).Some? { var ps := ReadWalk(f, 8); }
  }

  predicate SizesRight(es: seq<Entry>) {
    forall i :: 0 <= i < |es| ==> Formed(es[i]) && SizeField(es[i].header) == |es[i].contents|
  }

  lemma {:induction false} ReadBody(pre: seq<byte>, es: seq<Entry>)
    requires SizesRight(es)
    ensures ReadFrom(pre + Body(es), |pre|) == Some(Members(es))
    decreases |es|
  {
    hide SizeField, NamesTable;
    var f := pre + Body(es);
    if es == [] {
      assert f == pre;
    } else {
      var e := es[0];
      var next := pre + EntryBytes(e);
      assert f == next + Body(es[1..]);
      Inside(pre, e, Body(es[1..]));
      ReadBody(next, es[1..]);
      assert |next| == |pre| + HEADER_SIZE + Padded(|e.contents|);
      assert f[|pre| + HEADER_SIZE..|pre| + HEADER_SIZE + |e.contents|] == e.contents;
    }
  }

  /** Reading what was written gives the same headers and contents in order,
      without the symbol table. */
  lemma ReadWritten(es: seq<Entry>)
    requires SizesRight(es)
    ensures ReadFrom(File(es), 8) == Some(Members(es))
  {
    ReadBody(MAGIC, es);
  }

  /** The size field as fill_header prints it. */
  ghost predicate SizePrinted(e: Entry) {
    Formed(e) && exists blanks: nat :: e.header[48..58] == Decimal(|e.contents|) + Spaces(blanks)
  }

  lemma {:induction false} TrimBlanks(s: seq<byte>, n: nat)
    requires s == [] || s[|s| - 1] != SPACE
    ensures Trim(s + Spaces(n)) == s
  {
    if n == 0 {
      assert s + Spaces(n) == s;
    } else {
      var t := s + Spaces(n);
      assert t[..|t| - 1] == s + Spaces(n - 1);
      TrimBlanks(s, n - 1);
    }
  }

  /** The symbol table of the System V format has the name "/". */
  lemma TableNamed(h: seq<byte>)
    requires |h| == HEADER_SIZE && h[..16] == [SLASH] + Spaces(15)
    ensures NamesTable(h)
  {
    TrimBlanks([SLASH], 15);
    assert [SLASH][1..] == [];
  }

  /** An archive with a symbol table in front reads back as its other entries. */
  lemma TableDropped(es: seq<Entry>)
    requires es != [] && Formed(es[0]) && es[0].header[..16] == [SLASH] + Spaces(15)
    requires forall i :: 0 <= i < |es| ==> SizePrinted(es[i]) && (i > 0 ==> NameOf(es[i].header) != [SLASH])
    ensures ReadFrom(File(es), 8) == Some(es[1..])
  {
    hide NameOf, Strtol, Decimal, File, ReadFrom;
    TableNamed(es[0].header);
    forall i | 0 <= i < |es|
      ensures Formed(es[i]) && SizeField(es[i].header) == |es[i].contents|
    {
      assert SizePrinted(es[i]);
      var blanks: nat :| es[i].header[48..58] == Decimal(|es[i].contents|) + Spaces(blanks);
      SizeRoundTrip(|es[i].contents|, blanks);
    }
    ReadWritten(es);
    MembersExactly(es[1..]);
    assert [] + es[1..] == es[1..];
  }

  // ----- the symbol table -----------------------------------------------------------------

  /** A global symbol and the number of the entry that defines it. */
  datatype Symbol = Symbol(name: seq<byte>, entry: nat)

  /** htonl. */
  function BigEndian(n: nat): (r: seq<byte>)
    requires n < WORD
    ensures |r| == 4
  {
    [n / 0x100_0000, n / 0x1_0000 % 0x100, n / 0x100 % 0x100, n % 0x100]
  }

  function FromBigEndian(s: seq<byte>): nat
    requires |s| == 4
  {
    var b0: int, b1: int, b2: int, b3: int := s[0], s[1], s[2], s[3];
    0x100_0000 * b0 + 0x1_0000 * b1 + 0x100 * b2 + b3
  }

  lemma BigEndianRoundTrip(n: nat)
    requires n < WORD
    ensures FromBigEndian(BigEndian(n)) == n
  {}

  /** The number that bytes spell, the highest first. */
  function Spelled(s: seq<byte>): nat {
    if s == [] then 0 else 0x100 * Spelled(s[..|s| - 1]) + s[|s| - 1] as int
  }

  lemma BigEndianSpells(s: seq<byte>)
    requires |s| == 4
    ensures FromBigEndian(s) == Spelled(s)
  {
    var a, b, c := s[..3], s[..3][..2], s[..3][..2][..1];
    assert c[..0] == [] && Spelled(c) == s[0];
    assert Spelled(b) == 0x100 * Spelled(c) + s[1] as int;
    assert Spelled(a) == 0x100 * Spelled(b) + s[2] as int;
    assert Spelled(s) == 0x100 * Spelled(a) + s[3] as int;
  }

  /** The size that build_symbol_table computes first. */
  function TableSize(symbols: seq<Symbol>): nat {
    if symbols == [] then 4 else TableSize(symbols[..|symbols| - 1]) + |symbols[|symbols| - 1].name| + 1 + 4
  }

  ghost predicate Small(offsets: seq<nat>, symbols: seq<Symbol>) {
    && |symbols| < WORD
    && (forall i :: 0 <= i < |offsets| ==> offsets[i] < WORD)
    && (forall k :: 0 <= k < |symbols| ==> symbols[k].entry < |offsets| && 0 !in symbols[k].name)
  }

  ghost function Index(symbols: seq<Symbol>, offsets: seq<nat>): seq<byte>
    requires Small(offsets, symbols)
  {
    if symbols == [] then [] else
    var n := |symbols| - 1;
    Index(symbols[..n], offsets) + BigEndian(offsets[symbols[n].entry])
  }

  ghost function Names(symbols: seq<Symbol>): seq<byte> {
    if symbols == [] then [] else
    var n := |symbols| - 1;
    Names(symbols[..n]) + (symbols[n].name + [0])
  }

  ghost function SymbolTable(symbols: seq<Symbol>, offsets: seq<nat>): seq<byte>
    requires Small(offsets, symbols)
  {
    BigEndian(|symbols|) + Index(symbols, offsets) + Names(symbols)
  }

  /** The table fills the computed size exactly. */
  lemma {:induction false} TableFills(symbols: seq<Symbol>, offsets: seq<nat>)
    requires Small(offsets, symbols)
    ensures |Index(symbols, offsets)| == 4 * |symbols|
    ensures |SymbolTable(symbols, offsets)| == TableSize(symbols)
    decreases |symbols|
  {
    if symbols != [] { TableFills(symbols[..|symbols| - 1], offsets); }
  }

  lemma {:induction false} IndexAt(symbols: seq<Symbol>, offsets: seq<nat>, k: nat)
    requires Small(offsets, symbols) && k < |symbols|
    ensures |Index(symbols, offsets)| == 4 * |symbols|
    ensures Index(symbols, offsets)[4 * k..4 * k + 4] == BigEndian(offsets[symbols[k].entry])
    decreases |symbols|
  {
    hide BigEndian;
    TableFills(symbols, offsets);
    var n := |symbols| - 1;
    TableFills(symbols[..n], offsets);
    if k < n {
      IndexAt(symbols[..n], offsets, k);
      assert Index(symbols, offsets)[4 * k..4 * k + 4] == Index(symbols[..n], offsets)[4 * k..4 * k + 4];
    }
  }

  /** The k-th NUL-terminated string. */
  function NthName(s: seq<byte>, k: nat): seq<byte>
    decreases k
  {
    var h := Head(s);
    if k == 0 || |h| >= |s| then h else NthName(s[|h| + 1..], k - 1)
  }

  lemma {:induction false} HeadOf(name: seq<byte>, rest: seq<byte>)
    requires 0 !in name
    ensures Head(name + [0] + rest) == name
  {
    var s := name + [0] + rest;
    if name != [] {
      assert s[1..] == name[1..] + [0] + rest;
      HeadOf(name[1..], rest);
    }
  }

  lemma NamesSnoc(a: seq<Symbol>, s: Symbol)
    ensures Names(a + [s]) == Names(a) + (s.name + [0])
  {
    assert (a + [s])[..|a|] == a;
  }

  lemma {:induction false} NamesAppend(a: seq<Symbol>, b: seq<Symbol>)
    ensures Names(a + b) == Names(a) + Names(b)
    decreases |b|
  {
    hide Names;
    if b == [] {
      Associate(Names(a), Names(a), []);
      NamesNone();
      assert a + b == a;
    } else {
      var n := |b| - 1;
      var front := b[..n];
      NamesAppend(a, front);
      assert a + b == (a + front) + [b[n]] && b == front + [b[n]];
      NamesSnoc(a + front, b[n]);
      NamesSnoc(front, b[n]);
      Associate(Names(a), Names(front), b[n].name + [0]);
    }
  }

  lemma NamesNone()
    ensures Names([]) == []
  {}

  lemma {:induction false} NameAt(symbols: seq<Symbol>, k: nat)
    requires k < |symbols| && forall j :: 0 <= j < |symbols| ==> 0 !in symbols[j].name
    ensures NthName(Names(symbols), k) == symbols[k].name
    decreases k
  {
    var first, rest := symbols[..1], symbols[1..];
    assert symbols == first + rest;
    NamesAppend(first, rest);
    var name := symbols[0].name;
    assert first[..0] == [];
    assert Names(first) == [] + (name + [0]) == name + [0];
    HeadOf(name, Names(rest));
    assert Names(symbols)[|name| + 1..] == Names(rest);
    if k > 0 { NameAt(rest, k - 1); }
  }

  /** Word k of the index is the place in the file where header h stands. */
  predicate LeadsTo(f: seq<byte>, table: seq<byte>, k: nat, h: seq<byte>) {
    && 8 + 4 * k <= |table|
    && var p := FromBigEndian(table[4 + 4 * k..8 + 4 * k]); p + |h| <= |f| && f[p..p + |h|] == h
  }

  /** A table of n symbols gives symbol k this name. */
  predicate NamedBy(table: seq<byte>, n: nat, k: nat, name: seq<byte>) {
    && 4 + 4 * n <= |table| && FromBigEndian(table[..4]) == n
    && NthName(table[4 + 4 * n..], k) == name
  }

  lemma TableParts(symbols: seq<Symbol>, offsets: seq<nat>, k: nat)
    requires Small(offsets, symbols) && k < |symbols|
    ensures NamedBy(SymbolTable(symbols, offsets), |symbols|, k, symbols[k].name)
    ensures 8 + 4 * k <= |SymbolTable(symbols, offsets)|
    ensures FromBigEndian(SymbolTable(symbols, offsets)[4 + 4 * k..8 + 4 * k]) == offsets[symbols[k].entry]
  {
    hide Index, Names, BigEndian, FromBigEndian, NthName;
    var table := SymbolTable(symbols, offsets);
    var index := Index(symbols, offsets);
    IndexAt(symbols, offsets, k);
    NameAt(symbols, k);
    BigEndianRoundTrip(|symbols|);
    BigEndianRoundTrip(offsets[symbols[k].entry]);
    assert table[..4] == BigEndian(|symbols|);
    assert table[4 + 4 * |symbols|..] == Names(symbols);
    assert table[4 + 4 * k..8 + 4 * k] == index[4 * k..4 * k + 4];
  }

  /** Looking a symbol up in the written archive: the index leads to the header
      of the entry that defines it. */
  lemma SymbolLookup(es: seq<Entry>, symbols: seq<Symbol>, offsets: seq<nat>, k: nat)
    requires es != [] && (forall i :: 0 <= i < |es| ==> Formed(es[i])) && |offsets| == |es|
    requires Small(offsets, symbols) && forall i :: 0 <= i < |es| ==> offsets[i] == Position(es, i)
    requires es[0].contents == SymbolTable(symbols, offsets) && k < |symbols|
    ensures NamedBy(es[0].contents, |symbols|, k, symbols[k].name)
    ensures LeadsTo(File(es), es[0].contents, k, es[symbols[k].entry].header)
  {
    hide SymbolTable, FromBigEndian, File, EntryBytes, Body, NamedBy;
    TableParts(symbols, offsets, k);
    assert Formed(es[symbols[k].entry]);
    EntryAtPosition(es, symbols[k].entry);
    EntryLength(es[symbols[k].entry]);
  }

  lemma EntryLength(e: Entry)
    requires Formed(e)
    ensures |EntryBytes(e)| >= HEADER_SIZE
  {}

  // ----- headers ------------------------------------------------------------------------------

  /** What fill_header takes from a file's status. */
  datatype Stat = Stat(mtime: nat, uid: nat, gid: nat, mode: nat, size: nat)

  /** Ints that are not negative, and a mode of 16 bits. */
  predicate StatOk(st: Stat) {
    st.mtime < INT_MAX && st.uid < INT_MAX && st.gid < INT_MAX && st.size < INT_MAX && st.mode < 0x1_0000
  }

  const INT_MAX: nat := 0x8000_0000

  function Octal(n: nat): (r: seq<byte>)
    ensures |r| > 0
  {
    if n < 8 then [ZERO_DIGIT + n] else Octal(n / 8) + [ZERO_DIGIT + n % 8]
  }

  /** Printed in octal and read in octal. */
  lemma {:induction false} OctalRead(n: nat, rest: seq<byte>)
    ensures Digits(Octal(n) + rest, 8, 0) == Digits(rest, 8, n)
    decreases n
  {
    if n < 8 {
      var s := Octal(n) + rest;
      assert s[1..] == rest;
    } else {
      var d: byte := ZERO_DIGIT + n % 8;
      OctalRead(n / 8, [d] + rest);
      assert Octal(n) + rest == Octal(n / 8) + ([d] + rest);
      assert ([d] + rest)[1..] == rest;
    }
  }

  lemma {:induction false} DecimalLength(n: nat, k: nat, bound: nat)
    requires n < bound && bound <= Power10(k) && k > 0
    ensures |Decimal(n)| <= k
    decreases k
  {
    if k > 1 && n >= 10 { DecimalLength(n / 10, k - 1, Power10(k - 1)); }
  }

  function Power10(k: nat): (r: nat)
    ensures r > 0
  {
    if k == 0 then 1 else 10 * Power10(k - 1)
  }

  /** memcpy of a text into a header. */
  function Overlay(h: seq<byte>, at: nat, text: seq<byte>): (r: seq<byte>)
    requires at + |text| <= |h|
    ensures |r| == |h|
  {
    h[..at] + text + h[at + |text|..]
  }

  /** The field from a to b holds a text and blanks. */
  ghost predicate Field(h: seq<byte>, a: nat, b: nat, text: seq<byte>) {
    a + |text| <= b <= |h| && h[a..b] == text + Spaces(b - a - |text|)
  }

  ghost predicate BlankFrom(h: seq<byte>, n: nat) {
    n <= |h| && forall i :: n <= i < |h| ==> h[i] == SPACE
  }

  /** A text laid over blanks is a field, and earlier fields stay. */
  lemma Laid(h: seq<byte>, at: nat, text: seq<byte>, n: nat, end: nat)
    requires at + |text| <= |h| && BlankFrom(h, n)
    ensures Overlay(h, at, text)[..at] == h[..at]
    ensures BlankFrom(Overlay(h, at, text), if at + |text| < n then n else at + |text|)
    ensures n <= at && at + |text| <= end <= |h| ==> Field(Overlay(h, at, text), at, end, text)
  {}

  lemma FieldStays(h: seq<byte>, h': seq<byte>, n: nat, a: nat, b: nat, text: seq<byte>)
    requires n <= |h| && |h'| == |h| && h'[..n] == h[..n] && b <= n && Field(h, a, b, text)
    ensures Field(h', a, b, text)
  {
    assert h'[a..b] == h'[..n][a..b] == h[..n][a..b] == h[a..b];
  }

  predicate Separator(b: byte) {
    b == SLASH || b == BACKSLASH
  }

  /** name is what follows the last separator of a path. */
  ghost predicate IsBase(path: seq<byte>, name: seq<byte>) {
    && |name| <= |path| && path[|path| - |name|..] == name
    && (|name| < |path| ==> Separator(path[|path| - |name| - 1]))
    && forall i :: 0 <= i < |name| ==> !Separator(name[i])
  }

  /** The name field for a file: at most 15 bytes, a slash and blanks. */
  function NameField(name: seq<byte>): (r: seq<byte>)
    ensures |r| == 16
  {
    var n := if |name| < 15 then |name| else 15;
    name[..n] + [SLASH] + Spaces(15 - n)
  }

  /** fill_header's loop over the path. */
  method BaseName(path: seq<byte>) returns (name: seq<byte>)
    ensures IsBase(path, name)
  {
    var start, p := 0, 0;
    while p < |path|
      invariant 0 <= start <= p <= |path| && (start > 0 ==> Separator(path[start - 1]))
      invariant forall i :: start <= i < p ==> !Separator(path[i])
    {
      if Separator(path[p]) { start := p + 1; }
      p := p + 1;
    }
    return path[start..p];
  }

  /** A header as fill_header leaves it: name, date, size and marker are right for
      every file; the other fields if the owner ids fit theirs. */
  ghost predicate Filled(h: seq<byte>, path: seq<byte>, st: Stat) {
    && |h| == HEADER_SIZE
    && (exists name :: IsBase(path, name) && h[..16] == NameField(name))
    && Field(h, 16, 28, Decimal(st.mtime)) && Field(h, 48, 58, Decimal(st.size)) && h[58..60] == [0x60, 0x0A]
    && (st.uid < 1_000_000 && st.gid < 1_000_000 ==>
          Field(h, 28, 34, Decimal(st.uid)) && Field(h, 34, 40, Decimal(st.gid)) && Field(h, 40, 48, Octal(st.mode)))
  }

  lemma DecimalFits(n: nat)
    requires n < INT_MAX
    ensures |Decimal(n)| <= 10 && (n < 1_000_000 ==> |Decimal(n)| <= 6)
  {
    assert Power10(2) == 100 && Power10(4) == 10_000 && Power10(6) == 1_000_000;
    assert Power10(8) == 100_000_000 && Power10(10) == 10_000_000_000;
    DecimalLength(n, 10, INT_MAX);
    if n < 1_000_000 { DecimalLength(n, 6, 1_000_000); }
  }

  lemma {:induction false} OctalLength(n: nat, k: nat)
    requires n < Power8(k) && k > 0
    ensures |Octal(n)| <= k
    decreases k
  {
    if k > 1 && n >= 8 { OctalLength(n / 8, k - 1); }
  }

  function Power8(k: nat): (r: nat)
    ensures r > 0
  {
    if k == 0 then 1 else 8 * Power8(k - 1)
  }

  lemma OctalFits(n: nat)
    requires n < 0x1_0000
    ensures |Octal(n)| <= 6
  {
    assert Power8(2) == 64 && Power8(4) == 4096 && Power8(6) == 262144;
    OctalLength(n, 6);
  }

  /** The owner ids and the mode, which may run into each other but no further. */
  method FillOwner(h0: seq<byte>, st: Stat) returns (h: seq<byte>)
    requires StatOk(st) && |h0| == HEADER_SIZE && BlankFrom(h0, 28)
    ensures |h| == HEADER_SIZE && h[..28] == h0[..28] && BlankFrom(h, 48)
    ensures st.uid < 1_000_000 && st.gid < 1_000_000 ==>
              Field(h, 28, 34, Decimal(st.uid)) && Field(h, 34, 40, Decimal(st.gid)) && Field(h, 40, 48, Octal(st.mode))
  {
    hide Decimal, Octal, Overlay, Field;
    DecimalFits(st.uid);
    DecimalFits(st.gid);
    OctalFits(st.mode);
    var h1 := Overlay(h0, 28, Decimal(st.uid));
    Laid(h0, 28, Decimal(st.uid), 28, 34);
    var h2 := Overlay(h1, 34, Decimal(st.gid));
    Laid(h1, 34, Decimal(st.gid), if st.uid < 1_000_000 then 34 else 38, 40);
    h := Overlay(h2, 40, Octal(st.mode));
    Laid(h2, 40, Octal(st.mode), if st.uid < 1_000_000 && st.gid < 1_000_000 then 40 else 44, 48);
    assert h[..28] == h[..40][..28] && h2[..28] == h2[..34][..28];
    if st.uid < 1_000_000 && st.gid < 1_000_000 {
      FieldStays(h1, h2, 34, 28, 34, Decimal(st.uid));
      FieldStays(h2, h, 40, 28, 34, Decimal(st.uid));
      FieldStays(h2, h, 40, 34, 40, Decimal(st.gid));
    }
  }

  /** fill_header. */
  method FillHeader(path: seq<byte>, st: Stat) returns (h: seq<byte>)
    requires StatOk(st)
    ensures Filled(h, path, st)
  {
    hide Decimal, Octal, Overlay, IsBase, Field;
    DecimalFits(st.mtime);
    DecimalFits(st.size);
    var name := BaseName(path);
    var len := if |name| > 15 then 15 else |name|;
    var blank := Spaces(HEADER_SIZE);
    var h1 := Overlay(blank, 0, name[..len] + [SLASH]);
    Laid(blank, 0, name[..len] + [SLASH], 0, 16);
    IsNameField(h1, name, len);
    var h2 := Overlay(h1, 16, Decimal(st.mtime));
    Laid(h1, 16, Decimal(st.mtime), 16, 28);
    var h3 := FillOwner(h2, st);
    var h4 := Overlay(h3, 48, Decimal(st.size));
    Laid(h3, 48, Decimal(st.size), 48, 58);
    h := Overlay(h4, 58, [0x60, 0x0A]);
    Laid(h4, 58, [0x60, 0x0A], 58, 60);
    Marked(h);
    Stays(h1, h2, h3, h4, h);
    FieldStays(h2, h, 28, 16, 28, Decimal(st.mtime));
    FieldStays(h4, h, 58, 48, 58, Decimal(st.size));
    if st.uid < 1_000_000 && st.gid < 1_000_000 {
      FieldStays(h3, h, 48, 28, 34, Decimal(st.uid));
      FieldStays(h3, h, 48, 34, 40, Decimal(st.gid));
      FieldStays(h3, h, 48, 40, 48, Octal(st.mode));
    }
  }

  lemma IsNameField(h: seq<byte>, name: seq<byte>, len: nat)
    requires len == (if |name| > 15 then 15 else |name|) && Field(h, 0, 16, name[..len] + [SLASH])
    ensures h[..16] == NameField(name)
  {}

  lemma Marked(h: seq<byte>)
    requires |h| == HEADER_SIZE && Field(h, 58, 60, [0x60, 0x0A])
    ensures h[58..60] == [0x60, 0x0A]
  {}

  lemma Stays(h1: seq<byte>, h2: seq<byte>, h3: seq<byte>, h4: seq<byte>, h: seq<byte>)
    requires |h1| == |h2| == |h3| == |h4| == |h| == HEADER_SIZE
    requires h2[..16] == h1[..16] && h3[..28] == h2[..28] && h4[..48] == h3[..48] && h[..58] == h4[..58]
    ensures h[..16] == h1[..16] && h[..28] == h2[..28] && h[..48] == h3[..48]
  {
    assert h[..48] == h[..58][..48] == h4[..58][..48] == h4[..48];
    assert h[..28] == h[..48][..28] == h3[..48][..28] == h3[..28];
    assert h[..16] == h[..28][..16] == h2[..28][..16] == h2[..16];
  }

  lemma IsHeader(h: seq<byte>, path: seq<byte>, st: Stat)
    requires Filled(h, path, st)
    ensures |h| == HEADER_SIZE
  {}

  /** A file's header names the symbol table exactly if its path ends in a
      separator or is empty. */
  lemma FilledNames(h: seq<byte>, path: seq<byte>, st: Stat)
    requires Filled(h, path, st) && 0 !in path
    ensures NamesTable(h) <==> path == [] || Separator(path[|path| - 1])
  {
    hide Decimal, Octal, Field;
    var name :| IsBase(path, name) && h[..16] == NameField(name);
    var len := if |name| > 15 then 15 else |name|;
    var text := name[..len] + [SLASH];
    TrimBlanks(text, 15 - len);
    assert NameField(name) == text + Spaces(15 - len);
    if name == [] {
      assert text == [SLASH] && [SLASH][1..] == [];
    } else {
      assert text[0] == name[0] == path[|path| - |name|];
      assert path[|path| - 1] == name[|name| - 1];
    }
  }

  // ----- the operations -----------------------------------------------------------------------

  function Offset(sizes: seq<nat>, i: nat): (r: nat)
    requires i <= |sizes|
    ensures r % 2 == 0
  {
    if i == 0 then 8 else Offset(sizes, i - 1) + HEADER_SIZE + Padded(sizes[i - 1])
  }

  predicate SizesOf(sizes: seq<nat>, es: seq<Entry>) {
    |sizes| == |es| && forall i :: 0 <= i < |es| ==> sizes[i] == |es[i].contents|
  }

  /** The offsets are the positions in the written file. */
  lemma {:induction false} OffsetIsPosition(sizes: seq<nat>, es: seq<Entry>, i: nat)
    requires SizesOf(sizes, es) && i <= |es| && forall j :: 0 <= j < |es| ==> Formed(es[j])
    ensures Offset(sizes, i) == Position(es, i)
  {
    if i > 0 {
      OffsetIsPosition(sizes, es, i - 1);
      PositionStep(es, i - 1);
    } else {
      assert es[..0] == [];
    }
  }

  lemma OffsetStart(sizes: seq<nat>)
    ensures Offset(sizes, 0) == 8
  {}

  lemma OffsetStep(sizes: seq<nat>, i: nat)
    requires i < |sizes|
    ensures var x := Offset(sizes, i) + HEADER_SIZE + sizes[i];
      Offset(sizes, i + 1) == if x % 2 == 1 then x + 1 else x
  {
    StepLines(Offset(sizes, i), sizes[i]);
  }

  lemma StepLines(o: nat, n: nat)
    requires o % 2 == 0
    ensures var x := o + HEADER_SIZE + n; o + HEADER_SIZE + Padded(n) == if x % 2 == 1 then x + 1 else x
  {}

  /** The offset loop of build_symbol_table, which rounds the running offset. */
  method ComputeOffsets(sizes: seq<nat>) returns (offsets: seq<nat>)
    ensures |offsets| == |sizes| && forall i :: 0 <= i < |sizes| ==> offsets[i] == Offset(sizes, i)
  {
    hide Offset, Padded;
    offsets := [];
    var offset := 8;
    OffsetStart(sizes);
    for i := 0 to |sizes|
      invariant |offsets| == i && offset == Offset(sizes, i)
      invariant forall j :: 0 <= j < i ==> offsets[j] == Offset(sizes, j)
    {
      OffsetStep(sizes, i);
      offsets := offsets + [offset];
      offset := offset + HEADER_SIZE + sizes[i];
      if offset % 2 == 1 { offset := offset + 1; }
    }
  }

  class Writer {
    var entries: seq<Entry>
    var offsets: seq<nat>
    var symbols: seq<Symbol>

    ghost predicate Valid()
      reads this
    {
      && (forall i :: 0 <= i < |entries| ==> Formed(entries[i]))
      && (forall k :: 0 <= k < |symbols| ==> symbols[k].entry < |entries| && 0 !in symbols[k].name)
    }

    constructor (entries: seq<Entry>, symbols: seq<Symbol>)
      requires forall i :: 0 <= i < |entries| ==> Formed(entries[i])
      requires forall k :: 0 <= k < |symbols| ==> symbols[k].entry < |entries| && 0 !in symbols[k].name
      ensures Valid() && this.entries == entries && this.symbols == symbols
    {
      this.entries, this.symbols, offsets := entries, symbols, [];
    }

    /** build_symbol_table. The first entry is the table, under an empty name. The
        offsets it stores are the final positions. */
    method BuildSymbolTable(now: nat)
      requires Valid() && entries != [] && |symbols| < WORD && now < INT_MAX
      requires Offset(Sizes(entries)[0 := TableSize(symbols)], |entries|) < INT_MAX
      modifies this`entries, this`offsets
      ensures Valid() && |offsets| == |entries| == |old(entries)| && Small(offsets, symbols)
      ensures entries[1..] == old(entries)[1..] && entries[0].contents == SymbolTable(symbols, offsets)
      ensures Filled(entries[0].header, [], Stat(now, 0, 0, 0x1B6, |entries[0].contents|))
      ensures forall i :: 0 <= i < |entries| ==> offsets[i] == Position(entries, i)
    {
      hide SymbolTable, Position, Filled;
      var size := TableBytes(symbols);
      var sizes := Sizes(entries)[0 := size];
      offsets := ComputeOffsets(sizes);
      OffsetsBelow(sizes);
      var table := FillTable(symbols, offsets);
      TableFills(symbols, offsets);
      OffsetGrows(sizes, 1, |sizes|);
      var header := FillHeader([], Stat(now, 0, 0, 0x1B6, size));
      IsHeader(header, [], Stat(now, 0, 0, 0x1B6, size));
      entries := entries[0 := Entry(header, table)];
      forall i | 0 <= i < |entries|
        ensures offsets[i] == Position(entries, i)
      {
        OffsetIsPosition(sizes, entries, i);
      }
    }

    /** write_archive, when every write succeeds. */
    method WriteArchive() returns (status: int, out: seq<byte>)
      requires Valid()
      ensures status == 0 && out == File(entries)
    {
      hide Body, EntryBytes;
      out := MAGIC;
      var offset := 8;
      assert entries[..0] == [];
      BodyEmpty();
      for i := 0 to |entries|
        invariant offset == |out| && offset % 2 == 0
        invariant out == MAGIC + Body(entries[..i])
      {
        var e := entries[i];
        ghost var before := out;
        out := out + e.header;
        out := out + e.contents;
        offset := offset + HEADER_SIZE + |e.contents|;
        if offset % 2 == 1 {
          out := out + [0];
          offset := offset + 1;
        }
        BodySnoc(entries, i);
        EntryWritten(before, e);
        assert out == before + EntryBytes(e);
      }
      assert entries[..|entries|] == entries;
      return 0, out;
    }
  }

  /** A file to be archived, and the entry made of it. */
  ghost predicate MadeFrom(e: Entry, path: seq<byte>, st: Stat) {
    Filled(e.header, path, st) && st.size == |e.contents| && 0 !in path
  }

  /** An archive written with a symbol table reads back as the files in it, unless a
      path was empty or ended in a separator: such an entry is taken for a table. */
  lemma WrittenAndRead(es: seq<Entry>, paths: seq<seq<byte>>, stats: seq<Stat>)
    requires es != [] && |paths| == |stats| == |es| && paths[0] == []
    requires forall i :: 0 <= i < |es| ==> MadeFrom(es[i], paths[i], stats[i])
    ensures ReadFrom(File(es), 8) == Some(es[1..]) <==>
            forall i :: 0 < i < |es| ==> paths[i] != [] && !Separator(paths[i][|paths[i]| - 1])
  {
    hide Filled, NamesTable, Strtol, Decimal, File, ReadFrom, Separator;
    forall i | 0 <= i < |es|
      ensures Formed(es[i]) && SizeField(es[i].header) == |es[i].contents|
      ensures NamesTable(es[i].header) <==> paths[i] == [] || Separator(paths[i][|paths[i]| - 1])
    {
      assert MadeFrom(es[i], paths[i], stats[i]);
      FilledSize(es[i], paths[i], stats[i]);
      FilledNames(es[i].header, paths[i], stats[i]);
    }
    ReadWritten(es);
    assert [] + Members(es[1..]) == Members(es[1..]);
    MembersExactly(es[1..]);
    assert forall i :: 0 < i < |es| ==> es[i] == es[1..][i - 1];
    assert forall i :: 0 <= i < |es[1..]| ==> es[1..][i] == es[i + 1];
  }

  lemma FilledSize(e: Entry, path: seq<byte>, st: Stat)
    requires MadeFrom(e, path, st)
    ensures Formed(e) && SizeField(e.header) == |e.contents|
  {
    hide Strtol, Decimal;
    SizeRoundTrip(st.size, 10 - |Decimal(st.size)|);
  }

  lemma {:induction false} MembersExactly(es: seq<Entry>)
    requires forall i :: 0 <= i < |es| ==> Formed(es[i])
    ensures |Members(es)| <= |es|
    ensures Members(es) == es <==> forall i :: 0 <= i < |es| ==> !NamesTable(es[i].header)
  {
    hide NamesTable;
    if es != [] {
      MembersExactly(es[1..]);
      assert forall i :: 0 < i < |es| ==> es[i] == es[1..][i - 1];
      assert forall i :: 0 <= i < |es| - 1 ==> es[1..][i] == es[i + 1];
      if NamesTable(es[0].header) {
        assert |Members(es)| < |es|;
      } else {
        assert Members(es)[1..] == Members(es[1..]);
        assert es == [es[0]] + es[1..];
      }
    }
  }

  lemma BodyEmpty()
    ensures Body([]) == []
  {}

  lemma EntryWritten(before: seq<byte>, e: Entry)
    ensures before + EntryBytes(e) ==
            if |e.contents| % 2 == 1 then before + e.header + e.contents + [0] else before + e.header + e.contents
  {}

  function Sizes(es: seq<Entry>): (r: seq<nat>)
    ensures SizesOf(r, es)
  {
    seq<nat>(|es|, i requires 0 <= i < |es| => |es[i].contents|)
  }

  lemma {:induction false} OffsetGrows(sizes: seq<nat>, i: nat, j: nat)
    requires i <= j <= |sizes|
    ensures Offset(sizes, i) <= Offset(sizes, j)
  {
    if i < j { OffsetGrows(sizes, i, j - 1); }
  }

  lemma OffsetsBelow(sizes: seq<nat>)
    ensures forall i :: 0 <= i < |sizes| ==> Offset(sizes, i) <= Offset(sizes, |sizes|)
  {
    forall i | 0 <= i < |sizes|
      ensures Offset(sizes, i) <= Offset(sizes, |sizes|)
    {
      OffsetGrows(sizes, i, |sizes|);
    }
  }

  method TableBytes(symbols: seq<Symbol>) returns (size: nat)
    ensures size == TableSize(symbols)
  {
    size := 4;
    for k := 0 to |symbols|
      invariant size == TableSize(symbols[..k])
    {
      size := size + |symbols[k].name| + 1 + 4;
      assert symbols[..k + 1][..k] == symbols[..k];
    }
    assert symbols[..|symbols|] == symbols;
  }

  /** The filling loop, with one running position in the index and one in the
      names. */
  method FillTable(symbols: seq<Symbol>, offsets: seq<nat>) returns (table: seq<byte>)
    requires Small(offsets, symbols)
    ensures table == SymbolTable(symbols, offsets)
  {
    hide BigEndian;
    var index, strtab: seq<byte> := [], [];
    for k := 0 to |symbols|
      invariant index == Index(symbols[..k], offsets) && strtab == Names(symbols[..k])
    {
      index := index + BigEndian(offsets[symbols[k].entry]);
      strtab := strtab + (symbols[k].name + [0]);
      assert symbols[..k + 1][..k] == symbols[..k];
    }
    assert symbols[..|symbols|] == symbols;
    return BigEndian(|symbols|) + index + strtab;
  }

  /** The name test of read_archive_file: trailing blanks are cut off first. */
  method IsTableName(h: seq<byte>) returns (b: bool)
    requires |h| == HEADER_SIZE
    ensures b == NamesTable(h) == (Head(Trim(h[..16])) == [SLASH])
  {
    var i := 15;
    while i >= 0 && h[i] == SPACE
      invariant -1 <= i <= 15 && Trim(h[..16]) == Trim(h[..i + 1])
    {
      assert h[..i + 1][..i] == h[..i];
      i := i - 1;
    }
    assert Trim(h[..i + 1]) == h[..i + 1];
    // strcmp with "/" stops at the terminator at i + 1, or at a NUL before it
    return i >= 0 && h[0] == SLASH && (i == 0 || h[1] == 0);
  }

  /** read_archive_file, behind the magic. */
  method ReadArchive(f: seq<byte>) returns (r: Option<seq<Entry>>)
    ensures r == ReadFrom(f, 8)
  {
    hide Strtol, ReadFrom, NamesTable, Padded;
    var es := [];
    var pos := 8;
    PrependNothing(ReadFrom(f, 8));
    while pos < |f|
      invariant ReadFrom(f, 8) == Prepend(es, ReadFrom(f, pos))
      decreases |f| - pos
    {
      ReadStep(es, f, pos);
      if pos + HEADER_SIZE > |f| { return None; }
      var h := f[pos..pos + HEADER_SIZE];
      var size := SizeField(h);
      var offset := pos + HEADER_SIZE;
      var skip := IsTableName(h);
      if !skip {
        if offset + size > |f| { return None; }
        es := es + [Entry(h, f[offset..offset + size])];
      }
      EvenSize(size);
      pos := offset + (size + 1) / 2 * 2;
    }
    ReadEnd(es, f, pos);
    return Some(es);
  }

  lemma EvenSize(n: nat)
    ensures (n + 1) / 2 * 2 == Padded(n)
  {}

  lemma ReadEnd(es: seq<Entry>, f: seq<byte>, pos: nat)
    requires pos >= |f|
    ensures Prepend(es, ReadFrom(f, pos)) == Some(es)
  {
    assert es + [] == es;
  }

  /** One round of the reader, with the entries so far in front. */
  lemma ReadStep(es: seq<Entry>, f: seq<byte>, pos: nat)
    requires pos < |f|
    ensures pos + HEADER_SIZE > |f| ==> ReadFrom(f, pos).None?
    ensures pos + HEADER_SIZE <= |f| ==>
      var h, start := f[pos..pos + HEADER_SIZE], pos + HEADER_SIZE;
      var size := SizeField(h);
      if NamesTable(h) then Prepend(es, ReadFrom(f, pos)) == Prepend(es, ReadFrom(f, start + Padded(size)))
      else if start + size > |f| then ReadFrom(f, pos).None?
      else Prepend(es, ReadFrom(f, pos)) ==
           Prepend(es + [Entry(h, f[start..start + size])], ReadFrom(f, start + Padded(size)))
  {
    hide Strtol, NamesTable, Padded;
    if pos + HEADER_SIZE <= |f| {
      var h, start := f[pos..pos + HEADER_SIZE], pos + HEADER_SIZE;
      var size := SizeField(h);
      var next := ReadFrom(f, start + Padded(size));
      if NamesTable(h) {
        PrependNothing(next);
      } else if start + size <= |f| {
        Regroup(es, [Entry(h, f[start..start + size])], next);
      }
    }
  }

  function Prepend(a: seq<Entry>, r: Option<seq<Entry>>): Option<seq<Entry>> {
    match r
    case None => None
    case Some(b) => Some(a + b)
  }

  lemma PrependNothing(r: Option<seq<Entry>>)
    ensures Prepend([], r) == r
  {
    if r.Some? { assert [] + r.value == r.value; }
  }

  lemma Regroup(a: seq<Entry>, b: seq<Entry>, r: Option<seq<Entry>>)
    ensures Prepend(a, Prepend(b, r)) == Prepend(a + b, r)
    ensures a + [] == a
  {
    if r.Some? { assert a + (b + r.value) == (a + b) + r.value; }
  }
}
