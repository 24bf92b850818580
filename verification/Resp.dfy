/** The command encoding of the append-only file (aof.c, catAppendOnlyGenericCommand)
    and the parse loop that reads it back (aof.c, loadAppendOnlyFile). */
module Resp {
  import opened Common

  /** A byte is represented by a char; nothing below depends on the size of the alphabet. */
  type Bytes = string
  type Argv = seq<Bytes>

  const CRLF: Bytes := "\r\n"

  // ---- Decimal text ----

  predicate IsDigit(c: char) { '0' <= c <= '9' }

  predicate IsSpace(c: char) { c == ' ' || '\t' <= c <= '\r' }

  function Dec(n: nat): Bytes {
    if n < 10 then [('0' as int + n) as char]
    else Dec(n / 10) + [('0' as int + n % 10) as char]
  }

  function DecInt(n: int): Bytes {
    if n < 0 then "-" + Dec(-n) else Dec(n)
  }

  /** The value of the leading digits of `s`, continuing from `acc`. */
  function DigitsVal(s: Bytes, acc: nat): nat {
    if s == [] || !IsDigit(s[0]) then acc
    else DigitsVal(s[1..], 10 * acc + (s[0] as int - '0' as int))
  }

  function SkipSpace(s: Bytes): Bytes {
    if s != [] && IsSpace(s[0]) then SkipSpace(s[1..]) else s
  }

  /** strtol/atoi in base 10: blanks, an optional sign, then digits; the rest is ignored. */
  function StrToLL(s: Bytes): int {
    var t := SkipSpace(s);
    if t != [] && t[0] == '-' then 0 - DigitsVal(t[1..], 0)
    else if t != [] && t[0] == '+' then DigitsVal(t[1..], 0)
    else DigitsVal(t, 0)
  }

  predicate AllDigits(s: Bytes) { forall i :: 0 <= i < |s| ==> IsDigit(s[i]) }

  lemma {:induction false} DecShape(n: nat)
    ensures |Dec(n)| >= 1 && AllDigits(Dec(n))
    ensures n >= 1 ==> Dec(n)[0] != '0'
  {
    if n >= 10 { DecShape(n / 10); }
  }

  lemma {:induction false} DecShort(n: nat, bound: nat, k: nat)
    requires n < bound && bound <= Power10(k) && k >= 1
    ensures |Dec(n)| <= k
    decreases k
  {
    if n >= 10 {
      DecShort(n / 10, Power10(k - 1), k - 1);
    }
  }

  function Power10(k: nat): nat { if k == 0 then 1 else 10 * Power10(k - 1) }

  lemma {:induction false} DigitsValConcat(a: Bytes, b: Bytes, acc: nat)
    requires AllDigits(a)
    ensures DigitsVal(a + b, acc) == DigitsVal(b, DigitsVal(a, acc))
    decreases |a|
  {
    if a == [] {
      assert a + b == b;
    } else {
      assert (a + b)[1..] == a[1..] + b;
      DigitsValConcat(a[1..], b, 10 * acc + (a[0] as int - '0' as int));
    }
  }

  /** Reading the decimal text of `n` gives `n`, whatever non-digit follows it. */
  lemma {:induction false} DigitsValDec(n: nat, rest: Bytes)
    requires rest == [] || !IsDigit(rest[0])
    ensures DigitsVal(Dec(n) + rest, 0) == n
  {
    DecShape(n);
    if n < 10 {
      assert (Dec(n) + rest)[1..] == rest;
    } else {
      var last := [('0' as int + n % 10) as char];
      DecShape(n / 10);
      assert Dec(n) + rest == Dec(n / 10) + (last + rest);
      DigitsValConcat(Dec(n / 10), last + rest, 0);
      assert Dec(n / 10) + [] == Dec(n / 10);
      DigitsValDec(n / 10, []);
      assert (last + rest)[1..] == rest;
    }
  }

  /** A number is printed without a sign unless it is negative. Blanks in front of it are skipped, and
      are the six the C locale has. */
  lemma NumberText(n: int, c: char, s: Bytes)
    ensures n >= 0 ==> DecInt(n) == Dec(n)
    ensures n < 0 ==> DecInt(n) == ['-'] + Dec(-n)
    ensures IsSpace(c) <==> c in {' ', '\t', '\n', '\U{000B}', '\U{000C}', '\r'}
    ensures IsSpace(c) ==> StrToLL([c] + s) == StrToLL(s)
  {
    assert ([c] + s)[1..] == s;
  }

  lemma {:induction false} StrToLLDecInt(n: int, rest: Bytes)
    requires rest == [] || !IsDigit(rest[0])
    ensures StrToLL(DecInt(n) + rest) == n
  {
    if n < 0 {
      assert DecInt(n) + rest == "-" + (Dec(-n) + rest);
      DigitsValDec(-n, rest);
    } else {
      DecShape(n);
      assert (Dec(n) + rest)[0] == Dec(n)[0];
      DigitsValDec(n, rest);
    }
  }

  // ---- Encoding ----

  function Header(prefix: char, n: nat): Bytes { [prefix] + Dec(n) + CRLF }

  function Bulk(a: Bytes): Bytes { Header('$', |a|) + a + CRLF }

  function Bulks(args: Argv): Bytes {
    if args == [] then [] else Bulk(args[0]) + Bulks(args[1..])
  }

  function Encode(argv: Argv): Bytes { Header('*', |argv|) + Bulks(argv) }

  function EncodeAll(cmds: seq<Argv>): Bytes {
    if cmds == [] then [] else Encode(cmds[0]) + EncodeAll(cmds[1..])
  }

  const INT_MAX: nat := 0x7fff_ffff
  const LONG_MAX: nat := 0x7fff_ffff_ffff_ffff

  /** What the C types can hold: argc is an int of at least one, lengths are longs. */
  predicate WellFormed(argv: Argv) {
    && 1 <= |argv| <= INT_MAX
    && forall i :: 0 <= i < |argv| ==> |argv[i]| <= LONG_MAX
  }

  predicate AllWellFormed(cmds: seq<Argv>) { forall i :: 0 <= i < |cmds| ==> WellFormed(cmds[i]) }

  lemma {:induction false} BulksConcat(a: Argv, b: Argv)
    ensures Bulks(a + b) == Bulks(a) + Bulks(b)
  {
    if a == [] {
      assert a + b == b;
    } else {
      assert (a + b)[1..] == a[1..] + b;
      BulksConcat(a[1..], b);
    }
  }

  lemma {:induction false} EncodeAllConcat(a: seq<Argv>, b: seq<Argv>)
    ensures EncodeAll(a + b) == EncodeAll(a) + EncodeAll(b)
  {
    if a == [] {
      assert a + b == b;
    } else {
      assert (a + b)[1..] == a[1..] + b;
      EncodeAllConcat(a[1..], b);
    }
  }

  lemma EncodeAllOne(c: Argv)
    ensures EncodeAll([c]) == Encode(c)
  {
    assert EncodeAll([c][1..]) == [];
  }

  lemma BulksSnoc(args: Argv, a: Bytes)
    ensures Bulks(args + [a]) == Bulks(args) + Bulk(a)
  {
    BulksConcat(args, [a]);
    assert Bulks([a]) == Bulk(a) + Bulks([a][1..]);
  }

  /** catAppendOnlyGenericCommand: append one command to `dst`, argument by argument. */
  method CatGenericCommand(dst: Bytes, argv: Argv) returns (r: Bytes)
    ensures r == dst + Encode(argv)
  {
    var start := dst + Header('*', |argv|);
    r := start;
    for j := 0 to |argv|
      invariant r == start + Bulks(argv[..j])
    {
      ghost var before := r;
      r := r + Header('$', |argv[j]|);
      r := r + argv[j];
      r := r + CRLF;
      assert r == before + Bulk(argv[j]);
      BulksSnoc(argv[..j], argv[j]);
      assert argv[..j] + [argv[j]] == argv[..j + 1];
    }
    assert argv[..|argv|] == argv;
  }

  // ---- Loading ----

  /** How many bytes fgets(buf, 128, fp) takes from `s`: up to and with a newline, at most 127. */
  function LineLen(s: Bytes, room: nat): (n: nat)
    ensures n <= |s| && n <= room
    ensures s != [] && room > 0 ==> n > 0
  {
    if room == 0 || s == [] then 0
    else if s[0] == '\n' then 1
    else 1 + LineLen(s[1..], room - 1)
  }

  const FGETS_ROOM: nat := 127

  datatype ArgResult = Arg(arg: Bytes, rest: Bytes) | ArgEof | ArgFormat | ArgTooLarge

  /** One `$len` line, `len` bytes and two discarded bytes. */
  function ReadArg(s: Bytes): (r: ArgResult)
    ensures r.Arg? ==> |r.rest| < |s|
  {
    if s == [] then ArgEof
    else
      var n := LineLen(s, FGETS_ROOM);
      var line, rest := s[..n], s[n..];
      if line[0] != '$' then ArgFormat
      else
        var len := StrToLL(line[1..]);
        if len < 0 then ArgTooLarge
        else if len > 0 && |rest| < len then ArgEof
        else if |rest| < len + 2 then ArgEof
        else Arg(rest[..len], rest[len + 2..])
  }

  datatype ArgsResult = Args(args: Argv, rest: Bytes) | ArgsEnd(end: LoadEnd)

  /** How a load stops. `Complete` and `Truncated` keep the data read so far (the latter
      because aof-load-truncated is on); the others make the server exit. */
  datatype LoadEnd = Complete | Truncated | ReadFailure | BadFormat | OutOfMemory | RdbPreamble

  function ReadArgs(s: Bytes, n: nat): (r: ArgsResult)
    ensures r.Args? ==> |r.args| == n && |r.rest| <= |s|
  {
    if n == 0 then Args([], s)
    else match ReadArg(s)
      case ArgEof => ArgsEnd(Truncated)
      case ArgFormat => ArgsEnd(BadFormat)
      case ArgTooLarge => ArgsEnd(OutOfMemory)
      case Arg(a, rest) =>
        match ReadArgs(rest, n - 1)
        case ArgsEnd(e) => ArgsEnd(e)
        case Args(args, rest') => Args([a] + args, rest')
  }

  /** One iteration of the parse loop. A line that stops without a newline before the
      127-byte room is used up has met the end of the file. */
  function ReadCommand(s: Bytes): (r: ArgsResult)
    ensures r.Args? ==> |r.rest| < |s|
  {
    if s == [] then ArgsEnd(Complete)
    else
      var n := LineLen(s, FGETS_ROOM);
      var line, rest := s[..n], s[n..];
      if line[0] != '*' then ArgsEnd(BadFormat)
      else if n == 1 || line[1] == '\0' then
        ArgsEnd(if rest == [] && line[n - 1] != '\n' && n < FGETS_ROOM then Truncated else ReadFailure)
      else
        var argc := StrToLL(line[1..]);
        if argc < 1 then ArgsEnd(BadFormat) else ReadArgs(rest, argc)
  }

  /** The commands run, the length of the file up to the end of the last of them, and the end. */
  datatype LoadResult = LoadResult(run: seq<Argv>, validUpTo: nat, end: LoadEnd)

  function LoadFrom(s: Bytes): LoadResult
    decreases |s|
  {
    match ReadCommand(s)
    case ArgsEnd(e) => LoadResult([], 0, e)
    case Args(argv, rest) =>
      var r := LoadFrom(rest);
      LoadResult([argv] + r.run, |s| - |rest| + r.validUpTo, r.end)
  }

  predicate HasRdbPreamble(file: Bytes) { |file| >= 5 && file[..5] == "REDIS" }

  /** The preamble is those five bytes, whatever follows. */
  lemma PreambleIs(file: Bytes)
    ensures HasRdbPreamble(file) <==> "REDIS" <= file
  {
  }

  function Loaded(file: Bytes): LoadResult {
    if HasRdbPreamble(file) then LoadResult([], 0, RdbPreamble) else LoadFrom(file)
  }

  function After(run: seq<Argv>, validUpTo: nat, l: LoadResult): LoadResult {
    LoadResult(run + l.run, validUpTo + l.validUpTo, l.end)
  }

  /** loadAppendOnlyFile's loop over a file position. */
  method Load(file: Bytes) returns (r: LoadResult)
    ensures r == Loaded(file)
  {
    if HasRdbPreamble(file) { return LoadResult([], 0, RdbPreamble); }
    var pos, run, c := 0, [], ReadCommand(file);
    ghost var total := LoadFrom(file);
    assert file[0..] == file;
    while c.Args?
      invariant 0 <= pos <= |file| && c == ReadCommand(file[pos..])
      invariant total == After(run, pos, LoadFrom(file[pos..]))
      decreases |file| - pos
    {
      LoadStep(file, pos, run, c.args, c.rest);
      run := run + [c.args];
      pos := |file| - |c.rest|;
      c := ReadCommand(file[pos..]);
    }
    r := LoadResult(run, pos, c.end);
  }

  lemma LoadStep(file: Bytes, pos: nat, run: seq<Argv>, argv: Argv, rest: Bytes)
    requires pos <= |file| && ReadCommand(file[pos..]) == Args(argv, rest)
    ensures pos < |file| - |rest|
    ensures After(run, pos, LoadFrom(file[pos..]))
            == After(run + [argv], |file| - |rest|, LoadFrom(file[|file| - |rest|..]))
  {
    hide LoadFrom, ReadCommand;
    var s, l := file[pos..], LoadFrom(rest);
    assert file[|file| - |rest|..] == rest by {
      ReadCommandSuffix(s);
      assert s[|s| - |rest|..] == file[|file| - |rest|..];
    }
    LoadCommand(s, argv, rest);
    assert run + ([argv] + l.run) == (run + [argv]) + l.run;
  }

  lemma ReadArgSuffix(s: Bytes)
    ensures var r := ReadArg(s); r.Arg? ==> r.rest == s[|s| - |r.rest|..]
  {
    hide LineLen, StrToLL;
  }

  lemma {:induction false} ReadArgsSuffix(s: Bytes, n: nat)
    ensures var r := ReadArgs(s, n); r.Args? ==> r.rest == s[|s| - |r.rest|..]
  {
    hide ReadArg;
    if n > 0 && ReadArg(s).Arg? {
      var a := ReadArg(s);
      ReadArgSuffix(s);
      ReadArgsSuffix(a.rest, n - 1);
    }
  }

  lemma ReadCommandSuffix(s: Bytes)
    ensures var r := ReadCommand(s); r.Args? ==> r.rest == s[|s| - |r.rest|..]
  {
    if ReadCommand(s).Args? {
      var n := LineLen(s, FGETS_ROOM);
      ReadArgsSuffix(s[n..], StrToLL(s[..n][1..]));
    }
  }

  // ---- Loading inverts encoding ----

  lemma {:induction false} LineLenNoNewline(a: Bytes, b: Bytes, room: nat)
    requires forall i :: 0 <= i < |a| ==> a[i] != '\n'
    requires |a| <= room
    ensures LineLen(a + b, room) == |a| + LineLen(b, room - |a|)
    decreases |a|
  {
    if a == [] {
      assert a + b == b;
    } else {
      assert (a + b)[1..] == a[1..] + b;
      LineLenNoNewline(a[1..], b, room - 1);
    }
  }

  /** A whole header line is read back as its number; what follows it is left alone. */
  lemma ReadHeader(prefix: char, n: nat, rest: Bytes)
    requires n <= LONG_MAX && (prefix == '*' || prefix == '$')
    ensures LineLen(Header(prefix, n) + rest, FGETS_ROOM) == |Header(prefix, n)|
    ensures StrToLL(Header(prefix, n)[1..]) == n
  {
    DecShape(n);
    DecShort(n, LONG_MAX + 1, 19) by { assert LONG_MAX + 1 <= Power10(19) by { LongDigits(); } }
    var text := [prefix] + Dec(n) + ['\r'];
    var end: Bytes := ['\n'];
    assert Header(prefix, n) + rest == text + (end + rest);
    assert Header(prefix, n) == text + end;
    LineLenNoNewline(text, end + rest, FGETS_ROOM);
    assert (end + rest)[0] == '\n';
    assert Header(prefix, n)[1..] == Dec(n) + CRLF;
    StrToLLDecInt(n, CRLF);
  }

  lemma LongDigits()
    ensures LONG_MAX + 1 <= Power10(19)
  {
    assert Power10(5) == 100000;
    assert Power10(10) == 100000 * Power10(5);
    assert Power10(15) == 100000 * Power10(10);
    assert Power10(19) == 10000 * Power10(15);
  }

  lemma ReadBulk(a: Bytes, rest: Bytes)
    requires |a| <= LONG_MAX
    ensures ReadArg(Bulk(a) + rest) == Arg(a, rest)
  {
    var h := Header('$', |a|);
    var s := Bulk(a) + rest;
    assert s == h + (a + CRLF + rest);
    ReadHeader('$', |a|, a + CRLF + rest);
    assert s[..|h|] == h && s[|h|..] == a + CRLF + rest;
    assert (a + CRLF + rest)[..|a|] == a && (a + CRLF + rest)[|a| + 2..] == rest;
  }

  lemma ReadArgsStep(s: Bytes, n: nat, a: Bytes, tail: Bytes, args: Argv, rest: Bytes)
    requires n > 0 && ReadArg(s) == Arg(a, tail) && ReadArgs(tail, n - 1) == Args(args, rest)
    ensures ReadArgs(s, n) == Args([a] + args, rest)
  {
  }

  lemma BulksSplit(args: Argv, rest: Bytes)
    requires args != []
    ensures Bulks(args) + rest == Bulk(args[0]) + (Bulks(args[1..]) + rest)
  {
    Assoc(Bulk(args[0]), Bulks(args[1..]), rest);
  }

  lemma {:induction false} ReadBulks(args: Argv, rest: Bytes)
    requires forall i :: 0 <= i < |args| ==> |args[i]| <= LONG_MAX
    ensures ReadArgs(Bulks(args) + rest, |args|) == Args(args, rest)
  {

    if args == [] {
      assert Bulks(args) + rest == rest;
    } else {
      var tail := Bulks(args[1..]) + rest;
      BulksSplit(args, rest);
      ReadBulk(args[0], tail);
      ReadBulks(args[1..], rest);
      ReadArgsStep(Bulk(args[0]) + tail, |args|, args[0], tail, args[1..], rest);
    }
  }

  /** Every argument is binary safe: whatever its bytes, the command comes back whole. */
  lemma ReadEncoded(argv: Argv, rest: Bytes)
    requires WellFormed(argv)
    ensures ReadCommand(Encode(argv) + rest) == Args(argv, rest)
  {
    var h := Header('*', |argv|);
    var s := Encode(argv) + rest;
    assert s == h + (Bulks(argv) + rest);
    ReadHeader('*', |argv|, Bulks(argv) + rest);
    assert s[..|h|] == h && s[|h|..] == Bulks(argv) + rest;
    DecShape(|argv|);
    assert h[1] == Dec(|argv|)[0];
    ReadBulks(argv, rest);
  }

  lemma {:induction false} DigitsValGrows(s: Bytes, acc: nat)
    ensures DigitsVal(s, acc) >= acc
    decreases |s|
  {
    if s != [] && IsDigit(s[0]) { DigitsValGrows(s[1..], 10 * acc + (s[0] as int - '0' as int)); }
  }

  /** A proper, non-empty prefix of a header is taken as one line that meets the end of the
      file; its number is never negative, and at least one when the full number is. */
  lemma ReadPartialHeader(prefix: char, n: nat, m: nat)
    requires n <= LONG_MAX && (prefix == '*' || prefix == '$')
    requires 0 < m < |Header(prefix, n)|
    ensures var s := Header(prefix, n)[..m];
            && LineLen(s, FGETS_ROOM) == m < FGETS_ROOM && s[m - 1] != '\n'
            && StrToLL(s[1..]) >= 0
            && (n >= 1 && m > 1 ==> StrToLL(s[1..]) >= 1 && s[1] != '\0')
  {
    DecShape(n);
    DecShort(n, LONG_MAX + 1, 19) by { LongDigits(); }
    var s := Header(prefix, n)[..m];
    assert s + [] == s;
    LineLenNoNewline(s, [], FGETS_ROOM);
    if m > 1 {
      assert s[1] == Dec(n)[0];
      DigitsValGrows(s[1..][1..], s[1] as int - '0' as int);
    }
  }

  lemma TruncatedArg(a: Bytes, m: nat)
    requires |a| <= LONG_MAX && m < |Bulk(a)|
    ensures ReadArg(Bulk(a)[..m]) == ArgEof
  {
    var h := Header('$', |a|);
    var s := Bulk(a)[..m];
    if m == 0 {
    } else if m < |h| {
      assert s == h[..m];
      ReadPartialHeader('$', |a|, m);
      assert s[..m] == s;
    } else {
      var body := (a + CRLF)[..m - |h|];
      assert s == h + body;
      ReadHeader('$', |a|, body);
      assert s[..|h|] == h && s[|h|..] == body;
    }
  }

  lemma {:induction false} TruncatedArgs(args: Argv, m: nat)
    requires forall i :: 0 <= i < |args| ==> |args[i]| <= LONG_MAX
    requires m < |Bulks(args)|
    ensures ReadArgs(Bulks(args)[..m], |args|) == ArgsEnd(Truncated)
  {
    hide ReadArg, Bulk;
    var b, bs := Bulk(args[0]), Bulks(args[1..]);
    if m < |b| {
      assert (b + bs)[..m] == b[..m];
      TruncatedArg(args[0], m);
    } else {
      TakeConcat(b, bs, m);
      ReadBulk(args[0], bs[..m - |b|]);
      TruncatedArgs(args[1..], m - |b|);
    }
  }

  /** A command cut anywhere inside is reported as an unexpected end of file, never as a
      format error and never as a shorter command. */
  lemma TruncatedCommand(argv: Argv, m: nat)
    requires WellFormed(argv) && 0 < m < |Encode(argv)|
    ensures ReadCommand(Encode(argv)[..m]) == ArgsEnd(Truncated)
  {
    var h := Header('*', |argv|);
    var s := Encode(argv)[..m];
    if m < |h| {
      assert s == h[..m];
      ReadPartialHeader('*', |argv|, m);
      assert s[..m] == s;
    } else {
      var body := Bulks(argv)[..m - |h|];
      assert s == h + body;
      ReadHeader('*', |argv|, body);
      assert s[..|h|] == h && s[|h|..] == body;
      DecShape(|argv|);
      assert h[1] == Dec(|argv|)[0];
      TruncatedArgs(argv, m - |h|);
    }
  }

  /** `k` is the number of whole commands of `cmds` within the first `n` bytes. */
  predicate LongestPrefix(cmds: seq<Argv>, n: nat, k: nat) {
    && k <= |cmds|
    && |EncodeAll(cmds[..k])| <= n
    && (k < |cmds| ==> n < |EncodeAll(cmds[..k + 1])|)
  }

  /** The first `k` commands were run and end at `validUpTo`; bytes beyond it are a truncation. */
  function CutResult(cmds: seq<Argv>, n: nat, k: nat): LoadResult
    requires k <= |cmds|
  {
    var whole := |EncodeAll(cmds[..k])|;
    LoadResult(cmds[..k], whole, if n == whole then Complete else Truncated)
  }

  /** Cut the file at any byte: the loader runs exactly the commands that lie wholly before
      the cut, and reports the offset where the last of them ends. */
  lemma {:induction false} LoadTruncated(cmds: seq<Argv>, n: nat) returns (k: nat)
    requires AllWellFormed(cmds) && n <= |EncodeAll(cmds)|
    ensures LongestPrefix(cmds, n, k)
    ensures Loaded(EncodeAll(cmds)[..n]) == CutResult(cmds, n, k)
  {
    var s := EncodeAll(cmds)[..n];
    if |s| >= 5 { assert s[0] == '*'; assert s[..5][0] == s[0]; }
    k := LoadFromTruncated(cmds, n);
  }

  lemma {:induction false} LoadFromTruncated(cmds: seq<Argv>, n: nat) returns (k: nat)
    requires AllWellFormed(cmds) && n <= |EncodeAll(cmds)|
    ensures LongestPrefix(cmds, n, k)
    ensures LoadFrom(EncodeAll(cmds)[..n]) == CutResult(cmds, n, k)
  {
    if cmds == [] { return 0; }
    var c := Encode(cmds[0]);
    if n < |c| {
      k := 0;
      CutInFirst(cmds, n);
    } else {
      var k' := LoadFromTruncated(cmds[1..], n - |c|);
      k := k' + 1;
      PrefixStep(cmds, k');
      if k < |cmds| { PrefixStep(cmds, k); }
      CutAfterFirst(cmds, n, k');
    }
  }

  lemma CutInFirst(cmds: seq<Argv>, n: nat)
    requires AllWellFormed(cmds) && cmds != [] && n < |Encode(cmds[0])|
    ensures LongestPrefix(cmds, n, 0)
    ensures n <= |EncodeAll(cmds)| && LoadFrom(EncodeAll(cmds)[..n]) == CutResult(cmds, n, 0)
  {
    assert cmds[..1] == [cmds[0]];
    EncodeAllOne(cmds[0]);
    if n > 0 {
      assert EncodeAll(cmds)[..n] == Encode(cmds[0])[..n];
      TruncatedCommand(cmds[0], n);
    }
  }

  lemma TakeConcat<T>(a: seq<T>, b: seq<T>, n: nat)
    requires |a| <= n <= |a| + |b|
    ensures (a + b)[..n] == a + b[..n - |a|]
  {
  }

  lemma LoadCommand(s: Bytes, argv: Argv, rest: Bytes)
    requires ReadCommand(s) == Args(argv, rest)
    ensures var l := LoadFrom(rest);
            LoadFrom(s) == LoadResult([argv] + l.run, |s| - |rest| + l.validUpTo, l.end)
  {
    hide ReadCommand;
  }

  lemma CutAfterFirst(cmds: seq<Argv>, n: nat, k: nat)
    requires AllWellFormed(cmds) && cmds != [] && |Encode(cmds[0])| <= n <= |EncodeAll(cmds)|
    requires k < |cmds|
    requires var n' := n - |Encode(cmds[0])|;
             LoadFrom(EncodeAll(cmds[1..])[..n']) == CutResult(cmds[1..], n', k)
    ensures LoadFrom(EncodeAll(cmds)[..n]) == CutResult(cmds, n, k + 1)
  {
    hide LoadFrom, ReadCommand, Encode, AllWellFormed;
    var c := Encode(cmds[0]);
    var rest := EncodeAll(cmds[1..])[..n - |c|];
    TakeConcat(c, EncodeAll(cmds[1..]), n);
    FirstWellFormed(cmds);
    ReadEncoded(cmds[0], rest);
    LoadCommand(c + rest, cmds[0], rest);
    PrefixStep(cmds, k);
  }

  lemma PrefixStep(cmds: seq<Argv>, k: nat)
    requires k < |cmds|
    ensures cmds[..k + 1] == [cmds[0]] + cmds[1..][..k]
    ensures EncodeAll(cmds[..k + 1]) == Encode(cmds[0]) + EncodeAll(cmds[1..][..k])
  {
    assert cmds[..k + 1][1..] == cmds[1..][..k];
  }

  lemma EncodePrefixes(cmds: seq<Argv>, k: nat)
    requires k <= |cmds|
    ensures k < |cmds| ==> |EncodeAll(cmds[..k + 1])| <= |EncodeAll(cmds)|
  {
    if k < |cmds| {
      assert cmds == cmds[..k + 1] + cmds[k + 1..];
      EncodeAllConcat(cmds[..k + 1], cmds[k + 1..]);
    }
  }

  /** With nothing cut off, loading inverts encoding. */
  lemma LoadInvertsEncode(cmds: seq<Argv>)
    requires AllWellFormed(cmds)
    ensures Loaded(EncodeAll(cmds)) == LoadResult(cmds, |EncodeAll(cmds)|, Complete)
  {
    var n := |EncodeAll(cmds)|;
    var k := LoadTruncated(cmds, n);
    assert EncodeAll(cmds)[..n] == EncodeAll(cmds);
    assert cmds[..|cmds|] == cmds;
    EncodePrefixes(cmds, k);
  }

  // ---- Files that are no prefix of an encoding ----

  /** What follows a whole log is read as if it were a file of its own. */
  lemma {:induction false} LoadThenTail(cmds: seq<Argv>, tail: Bytes)
    requires AllWellFormed(cmds)
    ensures LoadFrom(EncodeAll(cmds) + tail) == After(cmds, |EncodeAll(cmds)|, LoadFrom(tail))
  {
    if cmds == [] {
      LoadNothing(tail);
    } else {
      LoadThenTail(cmds[1..], tail);
      hide LoadFrom, After, EncodeAll;
      TailStep(cmds, tail);
    }
  }

  lemma LoadNothing(tail: Bytes)
    ensures LoadFrom(EncodeAll([]) + tail) == After([], |EncodeAll([])|, LoadFrom(tail))
  {
    assert EncodeAll([]) + tail == tail;
  }

  lemma TailStep(cmds: seq<Argv>, tail: Bytes)
    requires AllWellFormed(cmds) && cmds != []
    requires LoadFrom(EncodeAll(cmds[1..]) + tail) == After(cmds[1..], |EncodeAll(cmds[1..])|, LoadFrom(tail))
    ensures LoadFrom(EncodeAll(cmds) + tail) == After(cmds, |EncodeAll(cmds)|, LoadFrom(tail))
  {
    hide LoadFrom, ReadCommand, Encode, AllWellFormed;
    var c, rest, l := Encode(cmds[0]), EncodeAll(cmds[1..]) + tail, LoadFrom(tail);
    assert EncodeAll(cmds) == c + EncodeAll(cmds[1..]);
    Assoc(c, EncodeAll(cmds[1..]), tail);
    FirstWellFormed(cmds);
    ReadEncoded(cmds[0], rest);
    LoadCommand(c + rest, cmds[0], rest);
    assert [cmds[0]] + (cmds[1..] + l.run) == cmds + l.run;
  }

  lemma FirstWellFormed(cmds: seq<Argv>)
    requires AllWellFormed(cmds) && cmds != []
    ensures WellFormed(cmds[0])
  {
  }

  /** A command that does not begin with '*', or announces no argument, stops the load as a format
      error after the whole log in front of it has run. */
  lemma BadCommand(cmds: seq<Argv>, tail: Bytes)
    requires AllWellFormed(cmds) && tail != []
    ensures tail[0] != '*' ==>
              LoadFrom(EncodeAll(cmds) + tail) == LoadResult(cmds, |EncodeAll(cmds)|, BadFormat)
    ensures Header('*', 0) <= tail ==>
              LoadFrom(EncodeAll(cmds) + tail) == LoadResult(cmds, |EncodeAll(cmds)|, BadFormat)
  {
    hide EncodeAll;
    LoadThenTail(cmds, tail);
    assert cmds + [] == cmds;
    if Header('*', 0) <= tail {
      var rest := tail[|Header('*', 0)|..];
      assert tail == Header('*', 0) + rest;
      ReadHeader('*', 0, rest);
      assert tail[..|Header('*', 0)|] == Header('*', 0) && tail[1] == '0';
    }
  }

  /** The same for a command that is whole up to an argument which does not begin with '$'; a negative
      length makes the server exit for want of memory. */
  lemma BadArgument(cmds: seq<Argv>, argc: nat, args: Argv, bad: Bytes)
    requires AllWellFormed(cmds) && |args| < argc <= INT_MAX && bad != []
    requires forall i :: 0 <= i < |args| ==> |args[i]| <= LONG_MAX
    ensures bad[0] != '$' ==>
              LoadFrom(EncodeAll(cmds) + (Header('*', argc) + (Bulks(args) + bad)))
              == LoadResult(cmds, |EncodeAll(cmds)|, BadFormat)
    ensures "$-1\r\n" <= bad ==>
              LoadFrom(EncodeAll(cmds) + (Header('*', argc) + (Bulks(args) + bad)))
              == LoadResult(cmds, |EncodeAll(cmds)|, OutOfMemory)
  {
    hide EncodeAll, Bulks, ReadArgs;
    var h, rest := Header('*', argc), Bulks(args) + bad;
    LoadThenTail(cmds, h + rest);
    assert cmds + [] == cmds;
    ReadHeader('*', argc, rest);
    assert (h + rest)[..|h|] == h && (h + rest)[|h|..] == rest;
    DecShape(argc);
    assert h[1] == Dec(argc)[0];
    if "$-1\r\n" <= bad { NegativeLength(bad); }
    BadArgs(args, bad, argc);
  }

  lemma NegativeLength(bad: Bytes)
    requires "$-1\r\n" <= bad
    ensures ReadArg(bad) == ArgTooLarge
  {
    var text: Bytes, rest := "$-1\r", bad[4..];
    assert bad == text + rest && rest[0] == '\n';
    LineLenNoNewline(text, rest, FGETS_ROOM);
    assert bad[..5][1..] == DecInt(-1) + CRLF by { assert Dec(1) == "1"; }
    StrToLLDecInt(-1, CRLF);
  }

  lemma {:induction false} BadArgs(args: Argv, bad: Bytes, n: nat)
    requires |args| < n && bad != [] && forall i :: 0 <= i < |args| ==> |args[i]| <= LONG_MAX
    ensures bad[0] != '$' ==> ReadArgs(Bulks(args) + bad, n) == ArgsEnd(BadFormat)
    ensures ReadArg(bad) == ArgTooLarge ==> ReadArgs(Bulks(args) + bad, n) == ArgsEnd(OutOfMemory)
    decreases |args|
  {
    hide ReadArg;
    if args == [] {
      assert Bulks(args) + bad == bad;
      if bad[0] != '$' { NoDollar(bad); }
    } else {
      var tail := Bulks(args[1..]) + bad;
      BulksSplit(args, bad);
      ReadBulk(args[0], tail);
      BadArgs(args[1..], bad, n - 1);
    }
  }

  lemma NoDollar(bad: Bytes)
    requires bad != [] && bad[0] != '$'
    ensures ReadArg(bad) == ArgFormat
  {
  }
}
