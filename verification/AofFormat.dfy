/** The text form of commands in the append only file: the printer, the loader's parse loop, and
    what the loader makes of a file that was cut anywhere. A file is a string of bytes. */
module AofFormat {

  type Argv = seq<string>

  // ---------------------------------------------------------------- numbers

  function Digit(d: nat): char
    requires d < 10
  {
    (48 + d) as char
  }

  predicate IsDigit(c: char) { 48 <= c as int <= 57 }

  function DigitValue(c: char): nat
    requires IsDigit(c)
  {
    c as int - 48
  }

  /** The decimal digits of n, as ll2string writes them. */
  function Dec(n: nat): (s: string)
    ensures |s| >= 1 && forall i :: 0 <= i < |s| ==> IsDigit(s[i])
    ensures n > 0 ==> s[0] != '0'
  {
    if n < 10 then [Digit(n)] else Dec(n / 10) + [Digit(n % 10)]
  }

  function Value(s: string): nat
    requires forall i :: 0 <= i < |s| ==> IsDigit(s[i])
  {
    if s == "" then 0 else 10 * Value(s[..|s| - 1]) + DigitValue(s[|s| - 1])
  }

  lemma {:induction false} ValueOfDec(n: nat)
    ensures Value(Dec(n)) == n
  {
    var s := Dec(n);
    if n >= 10 {
      assert s[..|s| - 1] == Dec(n / 10);
      ValueOfDec(n / 10);
    } else {
      assert s[..|s| - 1] == "";
    }
  }

  /** A number below 2^63 has at most 19 digits, one below 2^31 at most 10. */
  lemma DecLength(n: nat)
    requires n < 0x8000_0000_0000_0000
    ensures |Dec(n)| <= 19
  {
    assert Pow10(2) == 100 && Pow10(4) == 10_000 && Pow10(6) == 1_000_000 && Pow10(8) == 100_000_000;
    assert Pow10(10) == 10_000_000_000 && Pow10(12) == 1_000_000_000_000;
    assert Pow10(14) == 100_000_000_000_000 && Pow10(16) == 10_000_000_000_000_000;
    assert Pow10(18) == 1_000_000_000_000_000_000;
    DigitsBound(n, 19);
  }

  function Pow10(k: nat): nat { if k == 0 then 1 else 10 * Pow10(k - 1) }

  lemma {:induction false} DigitsBound(n: nat, k: nat)
    requires k >= 1 && n < Pow10(k)
    ensures |Dec(n)| <= k
  {
    if n >= 10 {
      DigitsBound(n / 10, k - 1);
    }
  }

  // ---------------------------------------------------------------- the printer

  function PrintArg(arg: string): string { "$" + Dec(|arg|) + "\r\n" + arg + "\r\n" }

  function PrintArgs(args: Argv): string { if args == [] then "" else PrintArg(args[0]) + PrintArgs(args[1..]) }

  function Print(cmd: Argv): string { "*" + Dec(|cmd|) + "\r\n" + PrintArgs(cmd) }

  /** catAppendOnlyGenericCommand: the command is added to what `dst` holds. */
  method CatAppendOnlyGenericCommand(dst: string, argv: Argv) returns (r: string)
    ensures r == dst + Print(argv)
  {
    r := dst + ("*" + Dec(|argv|) + "\r\n");
    var j := 0;
    while j < |argv|
      invariant 0 <= j <= |argv|
      invariant r + PrintArgs(argv[j..]) == dst + Print(argv)
    {
      assert argv[j..][1..] == argv[j + 1..];
      ghost var rest := PrintArgs(argv[j + 1..]);
      assert PrintArgs(argv[j..]) == PrintArg(argv[j]) + rest;
      ghost var was := r;
      r := r + ("$" + Dec(|argv[j]|) + "\r\n" + argv[j] + "\r\n");
      assert r + rest == was + (PrintArg(argv[j]) + rest);
      j := j + 1;
    }
    assert argv[j..] == [];
  }

  // ---------------------------------------------------------------- C library functions of the loader

  /** Where a line begun before position i ends, with room for so many characters more. */
  function LineEnd(s: string, i: nat, room: nat): (r: nat)
    requires i <= |s|
    ensures i <= r <= |s| && (i < |s| && room > 0 ==> r > i)
    decreases |s| - i
  {
    if i == |s| || room == 0 then i else if s[i] == '\n' then i + 1 else LineEnd(s, i + 1, room - 1)
  }

  const LINE_ROOM: nat := 127

  /** What fgets returns: up to and with the first newline, as far as there is room. */
  function Line(s: string): string { s[..LineEnd(s, 0, LINE_ROOM)] }

  predicate IsSpace(c: char) { c == ' ' || 9 <= c as int <= 13 }

  function SkipSpace(s: string): string { if s != "" && IsSpace(s[0]) then SkipSpace(s[1..]) else s }

  /** The longest prefix of digits. */
  function Digits(s: string): (r: string)
    ensures forall i :: 0 <= i < |r| ==> IsDigit(r[i])
  {
    if s == "" || !IsDigit(s[0]) then "" else [s[0]] + Digits(s[1..])
  }

  function Clamp(x: int): int {
    if x < -0x8000_0000_0000_0000 then -0x8000_0000_0000_0000
    else if x > 0x7fff_ffff_ffff_ffff then 0x7fff_ffff_ffff_ffff
    else x
  }

  /** strtol with base 10 on a 64 bit long. */
  function StrTol(s: string): int {
    var t := SkipSpace(s);
    if t != "" && t[0] == '-' then Clamp(0 - Value(Digits(t[1..])))
    else if t != "" && t[0] == '+' then Clamp(Value(Digits(t[1..])))
    else Clamp(Value(Digits(t)))
  }

  /** atoi: what strtol returns, cut to 32 bits. */
  function Atoi(x: int): int { (x + 0x8000_0000) % 0x1_0000_0000 - 0x8000_0000 }

  // ---------------------------------------------------------------- the loader

  datatype Outcome =
    | Loaded          // end of file between commands
    | Truncated       // unexpected end of file
    | BadFormat
    | Unrecoverable   // read error, or an argument of impossible length

  datatype Read<T> = Got(value: T, rest: string) | Stop(why: Outcome)

  /** One argument: its length line, its bytes and two more that are not looked at. */
  function ReadArg(strtol: string -> int, s: string): Read<string> {
    if s == "" then Stop(Truncated)
    else
      var line := Line(s);
      var rest := s[|line|..];
      if line[0] != '$' then Stop(BadFormat)
      else
        var len := strtol(line[1..]);
        if len < 0 then Stop(Unrecoverable)
        else if |rest| < len then Stop(Truncated)
        else if |rest| < len + 2 then Stop(Truncated)
        else Got(rest[..len], rest[len + 2..])
  }

  function ReadArgs(strtol: string -> int, s: string, n: nat): Read<Argv>
    decreases n
  {
    if n == 0 then Got([], s)
    else
      match ReadArg(strtol, s)
      case Stop(why) => Stop(why)
      case Got(arg, rest) =>
        match ReadArgs(strtol, rest, n - 1)
        case Stop(why) => Stop(why)
        case Got(args, rest') => Got([arg] + args, rest')
  }

  /** fgets met the end of the file while reading this line. */
  predicate HitEof(line: string, s: string)
    requires line != ""
  {
    |line| == |s| && |line| < LINE_ROOM && line[|line| - 1] != '\n'
  }

  function ReadCommand(strtol: string -> int, s: string): Read<Argv>
    requires s != ""
  {
    var line := Line(s);
    if line[0] != '*' then Stop(BadFormat)
    else if |line| == 1 then Stop(Truncated)
    else if line[1] as int == 0 then Stop(if HitEof(line, s) then Truncated else Unrecoverable)
    else
      var argc := Atoi(strtol(line[1..]));
      if argc < 1 then Stop(BadFormat) else ReadArgs(strtol, s[|line|..], argc)
  }

  /** The commands run, and how much of the file they take. */
  datatype Load = Load(why: Outcome, cmds: seq<Argv>, validUpTo: nat)

  lemma ReadArgShrinks(strtol: string -> int, s: string)
    ensures ReadArg(strtol, s).Got? ==> |ReadArg(strtol, s).rest| < |s|
  {}

  lemma {:induction false} ReadArgsShrinks(strtol: string -> int, s: string, n: nat)
    ensures ReadArgs(strtol, s, n).Got? ==> |ReadArgs(strtol, s, n).rest| <= |s|
    decreases n
  {
    if n > 0 && ReadArg(strtol, s).Got? {
      ReadArgShrinks(strtol, s);
      ReadArgsShrinks(strtol, ReadArg(strtol, s).rest, n - 1);
    }
  }

  lemma ReadCommandShrinks(strtol: string -> int, s: string)
    requires s != ""
    ensures ReadCommand(strtol, s).Got? ==> |ReadCommand(strtol, s).rest| < |s|
  {
    var line := Line(s);
    if ReadCommand(strtol, s).Got? {
      ReadArgsShrinks(strtol, s[|line|..], Atoi(strtol(line[1..])));
    }
  }

  /** A round of the load loop: the end of the file between two commands ends it. */
  function ReadNext(strtol: string -> int, s: string): Read<Argv> { if s == "" then Stop(Loaded) else ReadCommand(strtol, s) }

  function Reader(strtol: string -> int): string -> Read<Argv> { s => ReadNext(strtol, s) }

  ghost predicate Shrinks(read: string -> Read<Argv>) {
    forall s :: read(s).Got? ==> |read(s).rest| < |s|
  }

  lemma ReadNextShrinks(strtol: string -> int)
    ensures Shrinks(Reader(strtol))
  {
    forall s: string | s != "" {
      ReadCommandShrinks(strtol, s);
    }
  }

  /** The load loop on what is left of the file, s, after `pos` bytes. */
  ghost function LoadWith(read: string -> Read<Argv>, s: string, pos: nat): Load
    requires Shrinks(read)
    decreases |s|
  {
    match read(s)
    case Stop(why) => Load(why, [], pos)
    case Got(cmd, rest) =>
      var more := LoadWith(read, rest, pos + |s| - |rest|);
      Load(more.why, [cmd] + more.cmds, more.validUpTo)
  }

  ghost function LoadFile(strtol: string -> int, s: string): Load {
    ReadNextShrinks(strtol);
    LoadWith(Reader(strtol), s, 0)
  }

  /** What the file formats of C allow: an int number of arguments, lengths in a long. */
  predicate Printable(cmd: Argv) {
    1 <= |cmd| < 0x8000_0000 && forall i :: 0 <= i < |cmd| ==> |cmd[i]| < 0x8000_0000_0000_0000
  }

  // ---------------------------------------------------------------- reading back numbers and lines

  predicate NoNewline(s: string) { forall i :: 0 <= i < |s| ==> s[i] != '\n' }

  lemma {:induction false} LineEndAtNewline(s: string, i: nat, n: nat, room: nat)
    requires i <= n < |s| && s[n] == '\n' && NoNewline(s[..n]) && n - i < room
    ensures LineEnd(s, i, room) == n + 1
    decreases |s| - i
  {
    if i < n {
      assert s[i] == s[..n][i];
      LineEndAtNewline(s, i + 1, n, room - 1);
    }
  }

  lemma LineWhole(h: string, tail: string)
    requires NoNewline(h) && |h| < LINE_ROOM
    ensures Line(h + "\n" + tail) == h + "\n"
  {
    var s := h + "\n" + tail;
    assert s[..|h|] == h;
    LineEndAtNewline(s, 0, |h|, LINE_ROOM);
  }

  lemma {:induction false} LineEndAtEnd(s: string, i: nat, room: nat)
    requires i <= |s| && NoNewline(s) && |s| - i <= room
    ensures LineEnd(s, i, room) == |s|
    decreases |s| - i
  {
    if i < |s| {
      LineEndAtEnd(s, i + 1, room - 1);
    }
  }

  lemma LineCut(h: string)
    requires NoNewline(h) && |h| <= LINE_ROOM
    ensures Line(h) == h
  {
    LineEndAtEnd(h, 0, LINE_ROOM);
  }

  lemma {:induction false} DigitsWhole(d: string, tail: string)
    requires forall i :: 0 <= i < |d| ==> IsDigit(d[i])
    requires tail == "" || !IsDigit(tail[0])
    ensures Digits(d + tail) == d
  {
    if d == "" {
      assert d + tail == tail;
    } else {
      assert (d + tail)[1..] == d[1..] + tail;
      DigitsWhole(d[1..], tail);
    }
  }

  /** A printed number is read back, whatever other than a digit follows it. */
  lemma StrTolOfDec(n: nat, tail: string)
    requires n < 0x8000_0000_0000_0000 && (tail == "" || !IsDigit(tail[0]))
    ensures StrTol(Dec(n) + tail) == n
  {
    var s := Dec(n) + tail;
    assert IsDigit(s[0]);
    assert SkipSpace(s) == s;
    DigitsWhole(Dec(n), tail);
    ValueOfDec(n);
  }

  ghost predicate ReadsNumber(strtol: string -> int, n: nat, tail: string) {
    n < 0x8000_0000_0000_0000 && (tail == "" || !IsDigit(tail[0])) ==> strtol(Dec(n) + tail) == n
  }

  /** What the loader needs of strtol. */
  ghost predicate ReadsNumbers(strtol: string -> int) {
    strtol("") == 0 && forall n: nat, tail :: ReadsNumber(strtol, n, tail)
  }

  lemma StrTolReads()
    ensures ReadsNumbers(StrTol)
  {
    forall n: nat, tail: string ensures ReadsNumber(StrTol, n, tail) {
      if n < 0x8000_0000_0000_0000 && (tail == "" || !IsDigit(tail[0])) {
        StrTolOfDec(n, tail);
      }
    }
  }

  /** The front of a printed number is a printed number. */
  lemma {:induction false} DecFront(n: nat, k: nat) returns (m: nat)
    requires 1 <= k <= |Dec(n)|
    ensures m <= n && (n > 0 ==> m > 0) && Dec(n)[..k] == Dec(m)
  {
    if k == |Dec(n)| {
      assert Dec(n)[..k] == Dec(n);
      return n;
    }
    assert n >= 10;
    assert Dec(n)[..k] == Dec(n / 10)[..k];
    m := DecFront(n / 10, k);
  }

  lemma TakeOfSum(a: string, b: string, k: nat)
    requires k <= |a| + |b|
    ensures k <= |a| ==> (a + b)[..k] == a[..k]
    ensures k >= |a| ==> (a + b)[..k] == a + b[..k - |a|]
  {}

  // ---------------------------------------------------------------- whole arguments and commands

  /** The header line of an argument or a command. */
  function Header(mark: char, n: nat): string { [mark] + Dec(n) + "\r" }

  lemma HeaderLine(strtol: string -> int, mark: char, n: nat, tail: string)
    requires ReadsNumbers(strtol) && mark != '\n' && n < 0x8000_0000_0000_0000
    ensures Line(Header(mark, n) + "\n" + tail) == Header(mark, n) + "\n"
    ensures strtol((Header(mark, n) + "\n")[1..]) == n
  {
    DecLength(n);
    LineWhole(Header(mark, n), tail);
    assert (Header(mark, n) + "\n")[1..] == Dec(n) + "\r\n";
    assert ReadsNumber(strtol, n, "\r\n");
  }

  /** After the header of an argument, its bytes and two more. */
  lemma ArgAfterHeader(strtol: string -> int, n: nat, rest: string)
    requires ReadsNumbers(strtol) && n < 0x8000_0000_0000_0000
    ensures ReadArg(strtol, Header('$', n) + "\n" + rest)
            == if |rest| < n + 2 then Stop(Truncated) else Got(rest[..n], rest[n + 2..])
  {
    var line := Header('$', n) + "\n";
    HeaderLine(strtol, '$', n, rest);
    assert (line + rest)[|line|..] == rest;
  }

  lemma AtoiSmall(x: int)
    requires 0 <= x < 0x8000_0000
    ensures Atoi(x) == x
  {}

  /** After the header of a command, its arguments. */
  lemma CommandAfterHeader(strtol: string -> int, n: nat, rest: string)
    requires ReadsNumbers(strtol) && 1 <= n < 0x8000_0000
    ensures ReadCommand(strtol, Header('*', n) + "\n" + rest) == ReadArgs(strtol, rest, n)
  {
    var line := Header('*', n) + "\n";
    HeaderLine(strtol, '*', n, rest);
    AtoiSmall(strtol(line[1..]));
    assert line[1] == Dec(n)[0];
    assert (line + rest)[|line|..] == rest;
  }

  lemma ReadWholeArg(strtol: string -> int, arg: string, tail: string)
    requires ReadsNumbers(strtol) && |arg| < 0x8000_0000_0000_0000
    ensures ReadArg(strtol, PrintArg(arg) + tail) == Got(arg, tail)
  {
    var rest := arg + "\r\n" + tail;
    assert PrintArg(arg) + tail == Header('$', |arg|) + "\n" + rest;
    ArgAfterHeader(strtol, |arg|, rest);
    assert rest[..|arg|] == arg && rest[|arg| + 2..] == tail;
  }

  lemma ReadArgsJoin(strtol: string -> int, s: string, n: nat, arg: string, rest: string, args: Argv, tail: string)
    requires ReadArg(strtol, s) == Got(arg, rest) && ReadArgs(strtol, rest, n) == Got(args, tail)
    ensures ReadArgs(strtol, s, n + 1) == Got([arg] + args, tail)
  {}

  lemma {:induction false} ReadWholeArgs(strtol: string -> int, args: Argv, tail: string)
    requires ReadsNumbers(strtol) && forall i :: 0 <= i < |args| ==> |args[i]| < 0x8000_0000_0000_0000
    ensures ReadArgs(strtol, PrintArgs(args) + tail, |args|) == Got(args, tail)
  {
    if args == [] {
      assert PrintArgs(args) + tail == tail;
    } else {
      var more := PrintArgs(args[1..]) + tail;
      assert PrintArgs(args) + tail == PrintArg(args[0]) + more;
      ReadWholeArg(strtol, args[0], more);
      ReadWholeArgs(strtol, args[1..], tail);
      assert args == [args[0]] + args[1..];
      ReadArgsJoin(strtol, PrintArgs(args) + tail, |args| - 1, args[0], more, args[1..], tail);
    }
  }

  lemma ReadWhole(strtol: string -> int, cmd: Argv, tail: string)
    requires ReadsNumbers(strtol) && Printable(cmd)
    ensures ReadCommand(strtol, Print(cmd) + tail) == Got(cmd, tail)
  {
    var rest := PrintArgs(cmd) + tail;
    assert Print(cmd) + tail == Header('*', |cmd|) + "\n" + rest;
    CommandAfterHeader(strtol, |cmd|, rest);
    ReadWholeArgs(strtol, cmd, tail);
  }

  // ---------------------------------------------------------------- cut arguments and commands

  /** A header cut before its newline is a line of its own with a number that is no greater. */
  lemma HeaderCut(strtol: string -> int, mark: char, n: nat, k: nat)
    requires ReadsNumbers(strtol) && mark != '\n' && n < 0x8000_0000_0000_0000 && 1 <= k <= |Header(mark, n)|
    ensures var s := Header(mark, n)[..k];
      && Line(s) == s && 0 <= strtol(s[1..]) <= n
      && (n > 0 && k > 1 ==> strtol(s[1..]) > 0) && (k > 1 ==> IsDigit(s[1]))
  {
    var s := Header(mark, n)[..k];
    DecLength(n);
    LineCut(s);
    var digits := Dec(n);
    assert Header(mark, n) == [mark] + (digits + "\r");
    TakeOfSum([mark], digits + "\r", k);
    assert s[1..] == (digits + "\r")[..k - 1];
    if k == 1 {
    } else if k == |Header(mark, n)| {
      assert s[1..] == digits + "\r" && ReadsNumber(strtol, n, "\r");
    } else {
      assert s[1..] == digits[..k - 1];
      var m := DecFront(n, k - 1);
      assert s[1..] == Dec(m) + "" && ReadsNumber(strtol, m, "");
    }
  }

  lemma ReadCutArg(strtol: string -> int, arg: string, k: nat)
    requires ReadsNumbers(strtol) && |arg| < 0x8000_0000_0000_0000 && k < |PrintArg(arg)|
    ensures ReadArg(strtol, PrintArg(arg)[..k]) == Stop(Truncated)
  {
    var s := PrintArg(arg)[..k];
    var h := Header('$', |arg|);
    var body := arg + "\r\n";
    assert PrintArg(arg) == (h + "\n") + body;
    TakeOfSum(h + "\n", body, k);
    if k == 0 {
    } else if k <= |h| {
      assert s == h[..k];
      HeaderCut(strtol, '$', |arg|, k);
      assert s[|s|..] == "";
    } else {
      var rest := body[..k - |h| - 1];
      assert s == h + "\n" + rest;
      ArgAfterHeader(strtol, |arg|, rest);
    }
  }

  lemma {:induction false} ReadCutArgs(strtol: string -> int, args: Argv, k: nat)
    requires ReadsNumbers(strtol) && forall i :: 0 <= i < |args| ==> |args[i]| < 0x8000_0000_0000_0000
    requires k < |PrintArgs(args)|
    ensures ReadArgs(strtol, PrintArgs(args)[..k], |args|) == Stop(Truncated)
  {
    var first, more := PrintArg(args[0]), PrintArgs(args[1..]);
    TakeOfSum(first, more, k);
    if k < |first| {
      ReadCutArg(strtol, args[0], k);
    } else {
      var k' := k - |first|;
      assert PrintArgs(args)[..k] == first + more[..k'];
      ReadWholeArg(strtol, args[0], more[..k']);
      ReadCutArgs(strtol, args[1..], k');
    }
  }

  lemma CommandHeaderCut(strtol: string -> int, n: nat, k: nat)
    requires ReadsNumbers(strtol) && 1 <= n < 0x8000_0000 && 1 <= k <= |Header('*', n)|
    ensures ReadCommand(strtol, Header('*', n)[..k]) == Stop(Truncated)
  {
    var s := Header('*', n)[..k];
    HeaderCut(strtol, '*', n, k);
    AtoiSmall(strtol(s[1..]));
    assert s[|s|..] == "";
  }

  /** A command that is cut anywhere is an unexpected end of file, never a format error. */
  lemma ReadCut(strtol: string -> int, cmd: Argv, k: nat)
    requires ReadsNumbers(strtol) && Printable(cmd) && 0 < k < |Print(cmd)|
    ensures ReadCommand(strtol, Print(cmd)[..k]) == Stop(Truncated)
  {
    var h := Header('*', |cmd|);
    var body := PrintArgs(cmd);
    assert Print(cmd) == (h + "\n") + body;
    TakeOfSum(h + "\n", body, k);
    if k <= |h| {
      assert Print(cmd)[..k] == h[..k];
      CommandHeaderCut(strtol, |cmd|, k);
    } else {
      var rest := body[..k - |h| - 1];
      assert Print(cmd)[..k] == h + "\n" + rest;
      CommandAfterHeader(strtol, |cmd|, rest);
      ReadCutArgs(strtol, cmd, k - |h| - 1);
    }
  }

  // ---------------------------------------------------------------- whole files and cut files

  function PrintWith(printer: Argv -> string, cmds: seq<Argv>): string {
    if cmds == [] then "" else printer(cmds[0]) + PrintWith(printer, cmds[1..])
  }

  /** Whole commands are read back and cut ones are seen to be cut. */
  ghost predicate Framed(printer: Argv -> string, read: string -> Read<Argv>, cmd: Argv) {
    && printer(cmd) != "" && read("") == Stop(Loaded)
    && (forall tail :: read(printer(cmd) + tail) == Got(cmd, tail))
    && (forall k :: 0 < k < |printer(cmd)| ==> read(printer(cmd)[..k]) == Stop(Truncated))
  }

  ghost predicate AllFramed(printer: Argv -> string, read: string -> Read<Argv>, cmds: seq<Argv>) {
    forall i :: 0 <= i < |cmds| ==> Framed(printer, read, cmds[i])
  }

  /** The number of commands that lie wholly within the first k bytes. */
  function WholeWithin(printer: Argv -> string, cmds: seq<Argv>, k: nat): (m: nat)
    ensures m <= |cmds|
  {
    if cmds == [] || k < |printer(cmds[0])| then 0 else 1 + WholeWithin(printer, cmds[1..], k - |printer(cmds[0])|)
  }

  /** It is the greatest such number. */
  lemma {:induction false} WholeWithinGreatest(printer: Argv -> string, cmds: seq<Argv>, k: nat)
    ensures var m := WholeWithin(printer, cmds, k);
      && |PrintWith(printer, cmds[..m])| <= k
      && (m < |cmds| ==> k < |PrintWith(printer, cmds[..m + 1])|)
  {
    var m := WholeWithin(printer, cmds, k);
    if m == 0 {
      assert cmds[..0] == [];
      if cmds != [] {
        assert cmds[..1] == [cmds[0]] && cmds[..1][1..] == [];
      }
    } else {
      WholeWithinGreatest(printer, cmds[1..], k - |printer(cmds[0])|);
      assert cmds[..m][1..] == cmds[1..][..m - 1];
      if m < |cmds| {
        assert cmds[..m + 1][1..] == cmds[1..][..m];
      }
    }
  }

  /** What a file cut after k bytes should load to. */
  function CutLoad(printer: Argv -> string, cmds: seq<Argv>, k: nat, pos: nat): Load {
    var m := WholeWithin(printer, cmds, k);
    var whole := |PrintWith(printer, cmds[..m])|;
    Load(if whole == k then Loaded else Truncated, cmds[..m], pos + whole)
  }

  lemma CutLoadNext(printer: Argv -> string, cmds: seq<Argv>, k: nat, pos: nat)
    requires cmds != [] && |printer(cmds[0])| <= k
    ensures var size := |printer(cmds[0])|;
      var more := CutLoad(printer, cmds[1..], k - size, pos + size);
      CutLoad(printer, cmds, k, pos) == Load(more.why, [cmds[0]] + more.cmds, more.validUpTo)
  {
    var m := WholeWithin(printer, cmds, k);
    assert cmds[..m] == [cmds[0]] + cmds[1..][..m - 1];
    assert cmds[..m][1..] == cmds[1..][..m - 1];
  }

  lemma LoadFirst(printer: Argv -> string, read: string -> Read<Argv>, cmd: Argv, tail: string, pos: nat)
    requires Shrinks(read) && Framed(printer, read, cmd)
    ensures var more := LoadWith(read, tail, pos + |printer(cmd)|);
      LoadWith(read, printer(cmd) + tail, pos) == Load(more.why, [cmd] + more.cmds, more.validUpTo)
  {
    var s := printer(cmd) + tail;
    assert read(s) == Got(cmd, tail);
    assert pos + |s| - |tail| == pos + |printer(cmd)|;
  }

  lemma LoadFirstCut(printer: Argv -> string, read: string -> Read<Argv>, cmds: seq<Argv>, k: nat, pos: nat)
    requires Shrinks(read) && cmds != [] && Framed(printer, read, cmds[0]) && k < |printer(cmds[0])|
    ensures LoadWith(read, printer(cmds[0])[..k], pos) == CutLoad(printer, cmds, k, pos)
  {
    assert cmds[..0] == [];
    if k == 0 {
      assert printer(cmds[0])[..k] == "";
    }
  }

  lemma LoadFirstOf(printer: Argv -> string, read: string -> Read<Argv>, cmds: seq<Argv>, k: nat, pos: nat)
    requires Shrinks(read) && cmds != [] && Framed(printer, read, cmds[0])
    requires |printer(cmds[0])| <= k <= |PrintWith(printer, cmds)|
    ensures var size := |printer(cmds[0])|;
      var more := LoadWith(read, PrintWith(printer, cmds[1..])[..k - size], pos + size);
      LoadWith(read, PrintWith(printer, cmds)[..k], pos) == Load(more.why, [cmds[0]] + more.cmds, more.validUpTo)
  {
    var first, more := printer(cmds[0]), PrintWith(printer, cmds[1..]);
    TakeOfSum(first, more, k);
    LoadFirst(printer, read, cmds[0], more[..k - |first|], pos);
  }

  lemma {:induction false} LoadCutWith(printer: Argv -> string, read: string -> Read<Argv>, cmds: seq<Argv>, k: nat, pos: nat)
    requires Shrinks(read) && read("") == Stop(Loaded) && AllFramed(printer, read, cmds)
    requires k <= |PrintWith(printer, cmds)|
    ensures LoadWith(read, PrintWith(printer, cmds)[..k], pos) == CutLoad(printer, cmds, k, pos)
    decreases |cmds|
  {
    if cmds == [] {
      assert cmds[..0] == [] && PrintWith(printer, cmds)[..k] == "";
    } else {
      var size := |printer(cmds[0])|;
      if k < size {
        TakeOfSum(printer(cmds[0]), PrintWith(printer, cmds[1..]), k);
        LoadFirstCut(printer, read, cmds, k, pos);
      } else {
        LoadCutWith(printer, read, cmds[1..], k - size, pos + size);
        LoadCutNext(printer, read, cmds, k, pos);
      }
    }
  }

  lemma LoadCutNext(printer: Argv -> string, read: string -> Read<Argv>, cmds: seq<Argv>, k: nat, pos: nat)
    requires Shrinks(read) && cmds != [] && Framed(printer, read, cmds[0])
    requires |printer(cmds[0])| <= k <= |PrintWith(printer, cmds)|
    requires var size := |printer(cmds[0])|;
      LoadWith(read, PrintWith(printer, cmds[1..])[..k - size], pos + size) == CutLoad(printer, cmds[1..], k - size, pos + size)
    ensures LoadWith(read, PrintWith(printer, cmds)[..k], pos) == CutLoad(printer, cmds, k, pos)
  {
    LoadFirstOf(printer, read, cmds, k, pos);
    CutLoadNext(printer, cmds, k, pos);
  }

  predicate AllPrintable(cmds: seq<Argv>) { forall i :: 0 <= i < |cmds| ==> Printable(cmds[i]) }

  lemma PrintableFramed(strtol: string -> int, cmd: Argv)
    requires ReadsNumbers(strtol) && Printable(cmd)
    ensures Framed(Print, Reader(strtol), cmd)
  {
    forall tail: string ensures ReadNext(strtol, Print(cmd) + tail) == Got(cmd, tail) {
      ReadWhole(strtol, cmd, tail);
    }
    forall k | 0 < k < |Print(cmd)| ensures ReadNext(strtol, Print(cmd)[..k]) == Stop(Truncated) {
      ReadCut(strtol, cmd, k);
    }
  }

  function PrintAll(cmds: seq<Argv>): string { PrintWith(Print, cmds) }

  /** Any cut of a printed file loads exactly the whole commands before the cut, and the offset
      kept as valid is their total length. */
  lemma LoadCut(cmds: seq<Argv>, k: nat)
    requires AllPrintable(cmds) && k <= |PrintAll(cmds)|
    ensures var m := WholeWithin(Print, cmds, k);
      var whole := |PrintAll(cmds[..m])|;
      LoadFile(StrTol, PrintAll(cmds)[..k]) == Load(if whole == k then Loaded else Truncated, cmds[..m], whole)
  {
    ReadNextShrinks(StrTol);
    StrTolReads();
    forall i | 0 <= i < |cmds| {
      PrintableFramed(StrTol, cmds[i]);
    }
    LoadCutWith(Print, Reader(StrTol), cmds, k, 0);
  }

  lemma {:induction false} WholeWithinAll(printer: Argv -> string, cmds: seq<Argv>)
    ensures WholeWithin(printer, cmds, |PrintWith(printer, cmds)|) == |cmds|
  {
    if cmds != [] {
      WholeWithinAll(printer, cmds[1..]);
    }
  }

  /** The loader recovers the printed command list. */
  lemma LoadPrinted(cmds: seq<Argv>)
    requires AllPrintable(cmds)
    ensures LoadFile(StrTol, PrintAll(cmds)) == Load(Loaded, cmds, |PrintAll(cmds)|)
  {
    WholeWithinAll(Print, cmds);
    LoadCut(cmds, |PrintAll(cmds)|);
    assert PrintAll(cmds)[..|PrintAll(cmds)|] == PrintAll(cmds) && cmds[..|cmds|] == cmds;
  }

  // ---------------------------------------------------------------- the loader's loops

  method Fgets(file: string, pos: nat) returns (line: string)
    requires pos <= |file|
    ensures line == Line(file[pos..])
  {
    ghost var s := file[pos..];
    var i, room := 0, LINE_ROOM;
    while pos + i < |file| && room > 0
      invariant i <= |s| && LineEnd(s, 0, LINE_ROOM) == LineEnd(s, i, room)
      decreases room
    {
      i, room := i + 1, room - 1;
      if file[pos + i - 1] == '\n' {
        break;
      }
    }
    return file[pos..pos + i];
  }

  method LoadArg(strtol: string -> int, file: string, pos: nat) returns (r: Read<string>)
    requires pos <= |file|
    ensures r == ReadArg(strtol, file[pos..])
  {
    if pos == |file| {
      return Stop(Truncated);
    }
    var line := Fgets(file, pos);
    if line[0] != '$' {
      return Stop(BadFormat);
    }
    var len := strtol(line[1..]);
    if len < 0 {
      return Stop(Unrecoverable);
    }
    var at := pos + |line|;
    assert file[at..] == file[pos..][|line|..];
    if |file| - at < len + 2 {
      return Stop(Truncated);
    }
    assert file[at..][..len] == file[at..at + len] && file[at..][len + 2..] == file[at + len + 2..];
    return Got(file[at..at + len], file[at + len + 2..]);
  }

  /** Arguments read so far, before the outcome of those still to read. */
  function Before(args: Argv, more: Read<Argv>): Read<Argv> {
    match more
    case Stop(why) => Stop(why)
    case Got(args', rest) => Got(args + args', rest)
  }

  /** Some arguments are read, and n are still to read at a position of the file. */
  ghost predicate Reading(strtol: string -> int, file: string, at: nat, n: nat, args: Argv, all: Read<Argv>) {
    at <= |file| && all == Before(args, ReadArgs(strtol, file[at..], n))
  }

  lemma BeforeNone(more: Read<Argv>)
    ensures Before([], more) == more
  {
    if more.Got? {
      assert [] + more.value == more.value;
    }
  }

  /** The first of the arguments still to read. */
  lemma ReadArgsFirst(strtol: string -> int, file: string, at: nat, n: nat, args: Argv, all: Read<Argv>, one: Read<string>)
    requires n > 0 && at <= |file| && all == Before(args, ReadArgs(strtol, file[at..], n)) && one == ReadArg(strtol, file[at..])
    ensures one.Stop? ==> all == Stop(one.why)
    ensures one.Got? ==> |one.rest| <= |file| - at
    ensures one.Got? ==> all == Before(args + [one.value], ReadArgs(strtol, file[|file| - |one.rest|..], n - 1))
  {
    if one.Got? {
      ReadArgTail(strtol, file[at..]);
      assert file[|file| - |one.rest|..] == one.rest;
      BeforeOne(args, one.value, ReadArgs(strtol, one.rest, n - 1));
    }
  }

  /** One round of the loop below. */
  method LoadOneMore(strtol: string -> int, file: string, at: nat, ghost n: nat, ghost args: Argv, ghost all: Read<Argv>)
    returns (one: Read<string>, at': nat)
    requires n > 0 && Reading(strtol, file, at, n, args, all)
    ensures one.Stop? ==> all == Stop(one.why)
    ensures one.Got? ==> Reading(strtol, file, at', n - 1, args + [one.value], all)
  {
    one := LoadArg(strtol, file, at);
    ReadArgsFirst(strtol, file, at, n, args, all, one);
    at' := if one.Got? then |file| - |one.rest| else at;
  }

  lemma BeforeLast(strtol: string -> int, file: string, at: nat, args: Argv, all: Read<Argv>)
    requires Reading(strtol, file, at, 0, args, all)
    ensures at <= |file| && all == Got(args, file[at..])
  {
    assert args + [] == args;
  }

  method LoadArgs(strtol: string -> int, file: string, pos: nat, argc: nat) returns (r: Read<Argv>)
    requires pos <= |file|
    ensures r == ReadArgs(strtol, file[pos..], argc)
  {
    var args: Argv, at, todo := [], pos, argc;
    ghost var all := ReadArgs(strtol, file[pos..], argc);
    BeforeNone(all);
    while todo > 0
      invariant Reading(strtol, file, at, todo, args, all)
    {
      var one, next := LoadOneMore(strtol, file, at, todo, args, all);
      if one.Stop? {
        return Stop(one.why);
      }
      args, at, todo := args + [one.value], next, todo - 1;
    }
    BeforeLast(strtol, file, at, args, all);
    return Got(args, file[at..]);
  }

  lemma BeforeOne(args: Argv, arg: string, more: Read<Argv>)
    ensures Before(args, Before([arg], more)) == Before(args + [arg], more)
  {
    if more.Got? {
      assert args + ([arg] + more.value) == args + [arg] + more.value;
    }
  }

  /** What is left to read is the end of what there was. */
  lemma ReadArgTail(strtol: string -> int, s: string)
    requires ReadArg(strtol, s).Got?
    ensures |ReadArg(strtol, s).rest| <= |s| && ReadArg(strtol, s).rest == s[|s| - |ReadArg(strtol, s).rest|..]
  {}

  method LoadCommand(strtol: string -> int, file: string, pos: nat) returns (r: Read<Argv>)
    requires pos < |file|
    ensures r == Reader(strtol)(file[pos..])
    ensures r.Got? ==> |r.rest| < |file| - pos && r.rest == file[|file| - |r.rest|..]
  {
    r := LoadOneCommand(strtol, file, pos);
    if r.Got? {
      ReadCommandTail(strtol, file[pos..]);
    }
  }

  method LoadOneCommand(strtol: string -> int, file: string, pos: nat) returns (r: Read<Argv>)
    requires pos < |file|
    ensures r == ReadCommand(strtol, file[pos..])
  {
    var line := Fgets(file, pos);
    if line[0] != '*' {
      return Stop(BadFormat);
    }
    if |line| == 1 {
      return Stop(Truncated);
    }
    if line[1] as int == 0 {
      return Stop(if HitEof(line, file[pos..]) then Truncated else Unrecoverable);
    }
    var argc := Atoi(strtol(line[1..]));
    if argc < 1 {
      return Stop(BadFormat);
    }
    r := LoadArgs(strtol, file, pos + |line|, argc);
    assert file[pos + |line|..] == file[pos..][|line|..];
  }

  lemma {:induction false} ReadArgsTail(strtol: string -> int, s: string, n: nat)
    requires ReadArgs(strtol, s, n).Got?
    ensures |ReadArgs(strtol, s, n).rest| <= |s| && ReadArgs(strtol, s, n).rest == s[|s| - |ReadArgs(strtol, s, n).rest|..]
    decreases n
  {
    if n > 0 {
      ReadArgTail(strtol, s);
      ReadArgsTail(strtol, ReadArg(strtol, s).rest, n - 1);
    }
  }

  lemma ReadCommandTail(strtol: string -> int, s: string)
    requires s != "" && ReadCommand(strtol, s).Got?
    ensures |ReadCommand(strtol, s).rest| < |s| && ReadCommand(strtol, s).rest == s[|s| - |ReadCommand(strtol, s).rest|..]
  {
    var line := Line(s);
    ReadArgsTail(strtol, s[|line|..], Atoi(strtol(line[1..])));
  }

  /** Commands run so far, before the outcome of the rest of the file. */
  function AfterRunning(cmds: seq<Argv>, more: Load): Load { Load(more.why, cmds + more.cmds, more.validUpTo) }

  lemma LoadRound(read: string -> Read<Argv>, cmds: seq<Argv>, s: string, pos: nat)
    requires Shrinks(read)
    ensures AfterRunning(cmds, LoadWith(read, s, pos)) ==
      match read(s)
      case Stop(why) => Load(why, cmds, pos)
      case Got(cmd, rest) => AfterRunning(cmds + [cmd], LoadWith(read, rest, pos + |s| - |rest|))
  {
    if read(s).Got? {
      var more := LoadWith(read, read(s).rest, pos + |s| - |read(s).rest|);
      assert cmds + ([read(s).value] + more.cmds) == cmds + [read(s).value] + more.cmds;
    } else {
      assert cmds + [] == cmds;
    }
  }

  /** The next command, or why there is none. */
  method LoadNext(strtol: string -> int, file: string, pos: nat) returns (r: Read<Argv>)
    requires pos <= |file|
    ensures r == Reader(strtol)(file[pos..])
    ensures r.Got? ==> |r.rest| < |file| - pos && r.rest == file[|file| - |r.rest|..]
  {
    if pos == |file| {
      return Stop(Loaded);
    }
    r := LoadCommand(strtol, file, pos);
  }

  /** What loading comes to when the commands before `pos` have run. */
  ghost function LoadAfter(strtol: string -> int, file: string, pos: nat, cmds: seq<Argv>): Load
    requires pos <= |file|
  {
    ReadNextShrinks(strtol);
    AfterRunning(cmds, LoadWith(Reader(strtol), file[pos..], pos))
  }

  lemma RoundAt(read: string -> Read<Argv>, file: string, pos: nat, cmds: seq<Argv>, one: Read<Argv>, pos': nat)
    requires Shrinks(read) && pos <= |file| && one == read(file[pos..])
    requires one.Got? ==> pos' <= |file| && one.rest == file[pos'..]
    ensures one.Stop? ==> AfterRunning(cmds, LoadWith(read, file[pos..], pos)) == Load(one.why, cmds, pos)
    ensures one.Got? ==> AfterRunning(cmds, LoadWith(read, file[pos..], pos))
                         == AfterRunning(cmds + [one.value], LoadWith(read, file[pos'..], pos'))
  {
    LoadRound(read, cmds, file[pos..], pos);
  }

  /** One round of the loop below. */
  method LoadOne(strtol: string -> int, file: string, pos: nat, ghost cmds: seq<Argv>)
    returns (one: Read<Argv>, pos': nat)
    requires pos <= |file|
    ensures one.Stop? ==> LoadAfter(strtol, file, pos, cmds) == Load(one.why, cmds, pos)
    ensures one.Got? ==> pos < pos' <= |file|
    ensures one.Got? ==> LoadAfter(strtol, file, pos, cmds) == LoadAfter(strtol, file, pos', cmds + [one.value])
  {
    one := LoadNext(strtol, file, pos);
    pos' := if one.Got? then |file| - |one.rest| else pos;
    ReadNextShrinks(strtol);
    RoundAt(Reader(strtol), file, pos, cmds, one, pos');
  }

  lemma LoadStart(strtol: string -> int, file: string)
    ensures LoadFile(strtol, file) == LoadAfter(strtol, file, 0, [])
  {
    ReadNextShrinks(strtol);
    assert file[0..] == file;
    var all := LoadWith(Reader(strtol), file, 0);
    assert [] + all.cmds == all.cmds;
  }

  /** The loop of loadAppendOnlyFile over the commands of a file without preamble. */
  method LoadCommands(strtol: string -> int, file: string) returns (r: Load)
    ensures r == LoadFile(strtol, file)
  {
    var cmds: seq<Argv>, validUpTo := [], 0;
    LoadStart(strtol, file);
    ghost var all := LoadFile(strtol, file);
    while true
      invariant validUpTo <= |file| && all == LoadAfter(strtol, file, validUpTo, cmds)
      decreases |file| - validUpTo
    {
      var one, next := LoadOne(strtol, file, validUpTo, cmds);
      if one.Stop? {
        return Load(one.why, cmds, validUpTo);
      }
      cmds, validUpTo := cmds + [one.value], next;
    }
  }

  method LoadAppendOnlyFile(file: string) returns (r: Load)
    ensures r == LoadFile(StrTol, file)
  {
    r := LoadCommands(StrTol, file);
  }
}
