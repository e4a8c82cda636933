/** The loader on any bytes at all. Whatever a file holds, cut back to the offset kept as valid it is
    a file that loads without complaint; and every way in which a file goes wrong behind printed
    commands stops the load right there, with an outcome of its own. */
module AofRepair {
  import opened AofFormat

  // ---------------------------------------------------------------- reading does not look ahead

  lemma {:induction false} LineEndCut(s: string, i: nat, room: nat, m: nat)
    requires i <= |s| && LineEnd(s, i, room) <= m <= |s|
    ensures LineEnd(s[..m], i, room) == LineEnd(s, i, room)
    decreases |s| - i
  {
    if i < |s| && room > 0 && s[i] != '\n' { LineEndCut(s, i + 1, room - 1, m); }
  }

  lemma LineOfCut(s: string, m: nat)
    requires |Line(s)| <= m <= |s|
    ensures Line(s[..m]) == Line(s)
  {
    LineEndCut(s, 0, LINE_ROOM, m);
  }

  /** What r found at the front of s is found again, r', if s is cut behind it. */
  ghost predicate FoundAgain<T>(r: Read<T>, s: string, m: nat, r': Read<T>) {
    r.Got? && |r.rest| <= |s| && |s| - |r.rest| <= m <= |s| && r' == Got(r.value, s[|s| - |r.rest|..m])
  }

  ghost predicate ReadSteady<T>(read: string -> Read<T>, s: string, m: nat) {
    read(s).Got? && |s| - |read(s).rest| <= m <= |s|
    ==> FoundAgain(read(s), s, m, read(s[..m])) && read(s).rest == s[|s| - |read(s).rest|..]
  }

  /** A reader takes from the front, and does not look behind what it takes. */
  ghost predicate AllSteady<T>(read: string -> Read<T>) {
    && (forall s :: read(s).Got? ==> |read(s).rest| <= |s|)
    && forall s, m :: ReadSteady(read, s, m)
  }

  lemma ReadArgCut(strtol: string -> int, s: string, m: nat)
    requires ReadArg(strtol, s).Got? && |s| - |ReadArg(strtol, s).rest| <= m <= |s|
    ensures FoundAgain(ReadArg(strtol, s), s, m, ReadArg(strtol, s[..m]))
  {
    var line := Line(s);
    LineOfCut(s, m);
    var rest, rest' := s[|line|..], s[..m][|line|..];
    var len := strtol(line[1..]);
    assert rest'[..len] == rest[..len];
    assert rest'[len + 2..] == s[|line| + len + 2..m];
    assert |s| - |ReadArg(strtol, s).rest| == |line| + len + 2;
  }

  function ArgReader(strtol: string -> int): string -> Read<string> { s => ReadArg(strtol, s) }

  lemma ArgSteady(strtol: string -> int)
    ensures AllSteady(ArgReader(strtol))
  {
    forall s, m: nat ensures ReadSteady(ArgReader(strtol), s, m) {
      if ReadArg(strtol, s).Got? && |s| - |ReadArg(strtol, s).rest| <= m <= |s| {
        ReadArgCut(strtol, s, m);
        ReadArgTail(strtol, s);
      }
    }
    forall s: string | ReadArg(strtol, s).Got? ensures |ArgReader(strtol)(s).rest| <= |s| { ReadArgTail(strtol, s); }
  }

  /** n arguments one after the other, by any reader. */
  function Many(read: string -> Read<string>, s: string, n: nat): Read<Argv>
    decreases n
  {
    if n == 0 then Got([], s)
    else
      match read(s)
      case Stop(why) => Stop(why)
      case Got(arg, rest) => Before([arg], Many(read, rest, n - 1))
  }

  lemma {:induction false} ArgsAreMany(strtol: string -> int, s: string, n: nat)
    ensures ReadArgs(strtol, s, n) == Many(ArgReader(strtol), s, n)
    decreases n
  {
    if n > 0 && ReadArg(strtol, s).Got? { ArgsAreMany(strtol, ReadArg(strtol, s).rest, n - 1); }
  }

  lemma {:induction false} ManyTail(read: string -> Read<string>, s: string, n: nat)
    requires AllSteady(read) && Many(read, s, n).Got?
    ensures |Many(read, s, n).rest| <= |s|
    decreases n
  {
    if n > 0 { ManyTail(read, read(s).rest, n - 1); }
  }

  lemma JoinCut(arg: string, rest: string, more: Read<Argv>, more': Read<Argv>, s: string, m: nat, a: nat)
    requires a <= m <= |s| && rest == s[a..] && FoundAgain(more, rest, m - a, more')
    ensures FoundAgain(Before([arg], more), s, m, Before([arg], more'))
  {
    var b := |s| - |more.rest|;
    assert rest[b - a..m - a] == s[b..m];
  }

  lemma {:induction false} ManyCut(read: string -> Read<string>, s: string, n: nat, m: nat)
    requires AllSteady(read) && Many(read, s, n).Got? && |s| - |Many(read, s, n).rest| <= m <= |s|
    ensures FoundAgain(Many(read, s, n), s, m, Many(read, s[..m], n))
    decreases n
  {
    if n > 0 {
      var one := read(s);
      var a := |s| - |one.rest|;
      ManyTail(read, one.rest, n - 1);
      assert ReadSteady(read, s, m);
      var cut := one.rest[..m - a];
      assert s[a..m] == cut;
      ManyCut(read, one.rest, n - 1, m - a);
      JoinCut(one.value, one.rest, Many(read, one.rest, n - 1), Many(read, cut, n - 1), s, m, a);
    }
  }

  lemma ReadArgsCut(strtol: string -> int, s: string, n: nat, m: nat)
    requires ReadArgs(strtol, s, n).Got? && |s| - |ReadArgs(strtol, s, n).rest| <= m <= |s|
    ensures FoundAgain(ReadArgs(strtol, s, n), s, m, ReadArgs(strtol, s[..m], n))
  {
    ArgSteady(strtol);
    ArgsAreMany(strtol, s, n);
    ArgsAreMany(strtol, s[..m], n);
    ManyCut(ArgReader(strtol), s, n, m);
  }

  lemma ReadNextCut(strtol: string -> int, s: string, m: nat)
    requires ReadNext(strtol, s).Got? && |s| - |ReadNext(strtol, s).rest| <= m <= |s|
    ensures FoundAgain(ReadNext(strtol, s), s, m, ReadNext(strtol, s[..m]))
  {
    var line := Line(s);
    var rest, argc := s[|line|..], Atoi(strtol(line[1..]));
    ReadArgsTail(strtol, rest, argc);
    LineOfCut(s, m);
    ReadArgsCut(strtol, rest, argc, m - |line|);
    assert s[..m][|line|..] == rest[..m - |line|];
    var b := |s| - |ReadArgs(strtol, rest, argc).rest|;
    assert rest[b - |line|..m - |line|] == s[b..m];
  }

  // ---------------------------------------------------------------- cutting a file back

  ghost predicate Repaired(read: string -> Read<Argv>, s: string, pos: nat, r: Load)
    requires Shrinks(read)
  {
    && pos <= r.validUpTo <= pos + |s|
    && LoadWith(read, s[..r.validUpTo - pos], pos) == Load(Loaded, r.cmds, r.validUpTo)
    && (r.why == Loaded <==> r.validUpTo == pos + |s|)
  }

  /** Done at the end of the file only. */
  ghost predicate DoneAtEnd(read: string -> Read<Argv>) { forall s :: read(s) == Stop(Loaded) <==> s == "" }

  lemma RoundRepaired(read: string -> Read<Argv>, s: string, pos: nat, cmd: Argv, rest: string, n: nat, more: Load)
    requires Shrinks(read) && AllSteady(read) && read(s) == Got(cmd, rest) && n == |s| - |rest| > 0
    requires Repaired(read, rest, pos + n, more)
    ensures Repaired(read, s, pos, Load(more.why, [cmd] + more.cmds, more.validUpTo))
  {
    var m := more.validUpTo - pos;
    assert ReadSteady(read, s, m);
    var cut, cutRest := s[..m], rest[..m - n];
    assert cutRest == s[n..m];
    LoadOf(read, cut, pos, cmd, cutRest);
    assert pos + |cut| - |cutRest| == pos + n;
  }

  lemma LoadOf(read: string -> Read<Argv>, s: string, pos: nat, cmd: Argv, rest: string)
    requires Shrinks(read) && read(s) == Got(cmd, rest)
    ensures |rest| < |s|
    ensures var more := LoadWith(read, rest, pos + |s| - |rest|);
      LoadWith(read, s, pos) == Load(more.why, [cmd] + more.cmds, more.validUpTo)
  {}

  lemma {:induction false} LoadRepaired(read: string -> Read<Argv>, s: string, pos: nat)
    requires Shrinks(read) && AllSteady(read) && DoneAtEnd(read)
    ensures Repaired(read, s, pos, LoadWith(read, s, pos))
    decreases |s|
  {
    match read(s)
    case Stop(why) => assert s[..0] == "";
    case Got(cmd, rest) =>
      LoadOf(read, s, pos, cmd, rest);
      var n := |s| - |rest|;
      LoadRepaired(read, rest, pos + n);
      RoundRepaired(read, s, pos, cmd, rest, n, LoadWith(read, rest, pos + n));
  }

  lemma {:induction false} ReadArgsNeverDone(strtol: string -> int, s: string, n: nat)
    ensures ReadArgs(strtol, s, n) != Stop(Loaded)
    decreases n
  {
    if n > 0 && ReadArg(strtol, s).Got? { ReadArgsNeverDone(strtol, ReadArg(strtol, s).rest, n - 1); }
  }

  lemma ReadCommandNeverDone(strtol: string -> int, s: string)
    requires s != ""
    ensures ReadCommand(strtol, s) != Stop(Loaded)
  {
    var line := Line(s);
    var argc := Atoi(strtol(line[1..]));
    if argc >= 1 { ReadArgsNeverDone(strtol, s[|line|..], argc); }
  }

  lemma ReaderSteady(strtol: string -> int)
    ensures AllSteady(Reader(strtol)) && DoneAtEnd(Reader(strtol))
  {
    ReadNextShrinks(strtol);
    forall s, m: nat ensures ReadSteady(Reader(strtol), s, m) {
      if ReadNext(strtol, s).Got? && |s| - |ReadNext(strtol, s).rest| <= m <= |s| {
        ReadNextCut(strtol, s, m);
        ReadCommandTail(strtol, s);
      }
    }
    forall s: string | s != "" ensures Reader(strtol)(s) != Stop(Loaded) { ReadCommandNeverDone(strtol, s); }
  }

  /** Any file, cut back to the offset its load kept as valid, loads to the end and runs the same
      commands; a load gets to the end exactly if that offset is the length of the file. */
  lemma RepairedLoads(file: string)
    ensures var r := LoadFile(StrTol, file);
      && r.validUpTo <= |file|
      && LoadFile(StrTol, file[..r.validUpTo]) == Load(Loaded, r.cmds, r.validUpTo)
      && (r.why == Loaded <==> r.validUpTo == |file|)
  {
    ReadNextShrinks(StrTol);
    ReaderSteady(StrTol);
    LoadRepaired(Reader(StrTol), file, 0);
  }

  // ---------------------------------------------------------------- malformed files

  lemma SumThree<T>(a: seq<T>, b: seq<T>, c: seq<T>)
    ensures a + b + c == a + (b + c)
  {}

  /** Loading the whole runs the commands, then whatever s comes to. */
  ghost predicate RunsThen(read: string -> Read<Argv>, whole: string, pos: nat, cmds: seq<Argv>, s: string, end: nat)
    requires Shrinks(read)
  {
    LoadWith(read, whole, pos) == AfterRunning(cmds, LoadWith(read, s, end))
  }

  lemma LoadOneThen(printer: Argv -> string, read: string -> Read<Argv>,
                    cmds: seq<Argv>, s: string, pos: nat, first: string, tail: string, end: nat)
    requires Shrinks(read) && cmds != [] && Framed(printer, read, cmds[0]) && first == printer(cmds[0])
    requires RunsThen(read, tail + s, pos + |first|, cmds[1..], s, end)
    ensures RunsThen(read, first + tail + s, pos, cmds, s, end)
  {
    SumThree(first, tail, s);
    LoadFirst(printer, read, cmds[0], tail + s, pos);
    SumThree([cmds[0]], cmds[1..], LoadWith(read, s, end).cmds);
  }

  lemma {:induction false} LoadThen(printer: Argv -> string, read: string -> Read<Argv>, cmds: seq<Argv>, s: string, pos: nat, end: nat)
    requires Shrinks(read) && AllFramed(printer, read, cmds) && end == pos + |PrintWith(printer, cmds)|
    ensures RunsThen(read, PrintWith(printer, cmds) + s, pos, cmds, s, end)
    decreases |cmds|
  {
    if cmds == [] {
      assert PrintWith(printer, cmds) + s == s;
      assert [] + LoadWith(read, s, pos).cmds == LoadWith(read, s, pos).cmds;
    } else {
      LoadThen(printer, read, cmds[1..], s, pos + |printer(cmds[0])|, end);
      assert Framed(printer, read, cmds[0]);
      LoadOneThen(printer, read, cmds, s, pos, printer(cmds[0]), PrintWith(printer, cmds[1..]), end);
    }
  }

  lemma StopLoad(read: string -> Read<Argv>, whole: string, pos: nat, cmds: seq<Argv>, s: string, end: nat, why: Outcome)
    requires Shrinks(read) && RunsThen(read, whole, pos, cmds, s, end) && read(s) == Stop(why)
    ensures LoadWith(read, whole, pos) == Load(why, cmds, end)
  {
    assert cmds + [] == cmds;
  }

  lemma AllPrintableFramed(cmds: seq<Argv>)
    requires AllPrintable(cmds)
    ensures AllFramed(Print, Reader(StrTol), cmds)
  {
    StrTolReads();
    forall i | 0 <= i < |cmds| ensures Framed(Print, Reader(StrTol), cmds[i]) { PrintableFramed(StrTol, cmds[i]); }
  }

  lemma LoadPrintedThen(cmds: seq<Argv>, s: string)
    requires AllPrintable(cmds) && Shrinks(Reader(StrTol))
    ensures RunsThen(Reader(StrTol), PrintAll(cmds) + s, 0, cmds, s, |PrintAll(cmds)|)
  {
    AllPrintableFramed(cmds);
    LoadThen(Print, Reader(StrTol), cmds, s, 0, |PrintAll(cmds)|);
  }

  /** Behind printed commands, what is not a command ends the load: the commands ran, the offset is
      where it begins, and the outcome tells what is wrong with it. */
  lemma StopsAt(cmds: seq<Argv>, s: string, why: Outcome)
    requires AllPrintable(cmds) && s != "" && ReadCommand(StrTol, s) == Stop(why)
    ensures LoadFile(StrTol, PrintAll(cmds) + s) == Load(why, cmds, |PrintAll(cmds)|)
  {
    ReadNextShrinks(StrTol);
    LoadPrintedThen(cmds, s);
    StopLoad(Reader(StrTol), PrintAll(cmds) + s, 0, cmds, s, |PrintAll(cmds)|, why);
  }

  /** A command that does not begin with its mark. */
  lemma RejectsMark(cmds: seq<Argv>, s: string)
    requires AllPrintable(cmds) && s != "" && s[0] != '*'
    ensures LoadFile(StrTol, PrintAll(cmds) + s) == Load(BadFormat, cmds, |PrintAll(cmds)|)
  {
    assert Line(s)[0] == s[0];
    StopsAt(cmds, s, BadFormat);
  }

  /** A header line with a negative number. */
  function MinusLine(mark: char, n: nat): string { [mark] + "-" + Dec(n) + "\r\n" }

  lemma StrTolOfMinus(n: nat, tail: string)
    requires n < 0x8000_0000_0000_0000 && (tail == "" || !IsDigit(tail[0]))
    ensures StrTol("-" + Dec(n) + tail) == 0 - n
  {
    var s := "-" + Dec(n) + tail;
    assert SkipSpace(s) == s && s[1..] == Dec(n) + tail;
    DigitsWhole(Dec(n), tail);
    ValueOfDec(n);
  }

  lemma MinusLineRead(mark: char, n: nat, line: string, tail: string)
    requires n < 0x8000_0000_0000_0000 && mark != '\n' && line == MinusLine(mark, n)
    ensures |line| > 2 && line[0] == mark && line[1] == '-'
    ensures Line(line + tail) == line && StrTol(line[1..]) == 0 - n
  {
    DecLength(n);
    var h := [mark] + "-" + Dec(n) + "\r";
    assert h + "\n" == line;
    LineWhole(h, tail);
    assert line[1..] == "-" + Dec(n) + "\r\n";
    StrTolOfMinus(n, "\r\n");
  }

  lemma CountStops(line: string, n: nat, tail: string)
    requires |line| > 2 && line[0] == '*' && line[1] == '-' && n <= 0x8000_0000
    requires Line(line + tail) == line && StrTol(line[1..]) == 0 - n
    ensures ReadCommand(StrTol, line + tail) == Stop(BadFormat)
  {}

  /** A command that announces no arguments, or fewer. */
  lemma RejectsCount(cmds: seq<Argv>, n: nat, tail: string)
    requires AllPrintable(cmds) && n <= 0x8000_0000
    ensures LoadFile(StrTol, PrintAll(cmds) + (MinusLine('*', n) + tail)) == Load(BadFormat, cmds, |PrintAll(cmds)|)
  {
    var line := MinusLine('*', n);
    MinusLineRead('*', n, line, tail);
    CountStops(line, n, tail);
    StopsAt(cmds, line + tail, BadFormat);
  }

  lemma ArgsSum(args: Argv, s: string)
    requires args != []
    ensures PrintArgs(args) + s == PrintArg(args[0]) + (PrintArgs(args[1..]) + s)
  {
    SumThree(PrintArg(args[0]), PrintArgs(args[1..]), s);
  }

  lemma LaterStop(strtol: string -> int, arg: string, rest: string, n: nat, why: Outcome)
    requires ReadsNumbers(strtol) && n > 0 && |arg| < 0x8000_0000_0000_0000 && ReadArgs(strtol, rest, n - 1) == Stop(why)
    ensures ReadArgs(strtol, PrintArg(arg) + rest, n) == Stop(why)
  {
    ReadWholeArg(strtol, arg, rest);
  }

  /** Fewer arguments than announced, and then something that is none. */
  lemma {:induction false} ArgsStop(strtol: string -> int, args: Argv, n: nat, s: string, why: Outcome)
    requires ReadsNumbers(strtol) && |args| < n && (forall i :: 0 <= i < |args| ==> |args[i]| < 0x8000_0000_0000_0000)
    requires ReadArg(strtol, s) == Stop(why)
    ensures ReadArgs(strtol, PrintArgs(args) + s, n) == Stop(why)
    decreases |args|
  {
    if args == [] {
      assert PrintArgs(args) + s == s;
    } else {
      ArgsStop(strtol, args[1..], n - 1, s, why);
      LaterStop(strtol, args[0], PrintArgs(args[1..]) + s, n, why);
      ArgsSum(args, s);
    }
  }

  lemma StopsInside(cmds: seq<Argv>, n: nat, args: Argv, s: string, why: Outcome)
    requires AllPrintable(cmds) && |args| < n < 0x8000_0000
    requires (forall i :: 0 <= i < |args| ==> |args[i]| < 0x8000_0000_0000_0000) && ReadArg(StrTol, s) == Stop(why)
    ensures LoadFile(StrTol, PrintAll(cmds) + (Header('*', n) + "\n" + (PrintArgs(args) + s)))
            == Load(why, cmds, |PrintAll(cmds)|)
  {
    StrTolReads();
    CommandAfterHeader(StrTol, n, PrintArgs(args) + s);
    ArgsStop(StrTol, args, n, s, why);
    StopsAt(cmds, Header('*', n) + "\n" + (PrintArgs(args) + s), why);
  }

  /** An argument that does not begin with its mark: none of the command runs. */
  lemma RejectsArgument(cmds: seq<Argv>, n: nat, args: Argv, s: string)
    requires AllPrintable(cmds) && |args| < n < 0x8000_0000
    requires (forall i :: 0 <= i < |args| ==> |args[i]| < 0x8000_0000_0000_0000) && s != "" && s[0] != '$'
    ensures LoadFile(StrTol, PrintAll(cmds) + (Header('*', n) + "\n" + (PrintArgs(args) + s)))
            == Load(BadFormat, cmds, |PrintAll(cmds)|)
  {
    assert Line(s)[0] == s[0];
    StopsInside(cmds, n, args, s, BadFormat);
  }

  lemma LengthStops(line: string, len: nat, tail: string)
    requires |line| > 2 && line[0] == '$' && len > 0
    requires Line(line + tail) == line && StrTol(line[1..]) == 0 - len
    ensures ReadArg(StrTol, line + tail) == Stop(Unrecoverable)
  {}

  /** An argument of negative length. */
  lemma RejectsLength(cmds: seq<Argv>, n: nat, args: Argv, len: nat, tail: string)
    requires AllPrintable(cmds) && |args| < n < 0x8000_0000 && 0 < len < 0x8000_0000_0000_0000
    requires forall i :: 0 <= i < |args| ==> |args[i]| < 0x8000_0000_0000_0000
    ensures LoadFile(StrTol, PrintAll(cmds) + (Header('*', n) + "\n" + (PrintArgs(args) + (MinusLine('$', len) + tail))))
            == Load(Unrecoverable, cmds, |PrintAll(cmds)|)
  {
    var line := MinusLine('$', len);
    MinusLineRead('$', len, line, tail);
    LengthStops(line, len, tail);
    StopsInside(cmds, n, args, line + tail, Unrecoverable);
  }

  // ---------------------------------------------------------------- the format itself

  function OneDigit(n: nat): string
    requires n < 10
  {
    [('0' as int + n) as char]
  }

  /** The bytes of an argument, as the protocol has them. */
  lemma PrintedArg(arg: string, n: nat)
    requires |arg| == n < 10
    ensures PrintArg(arg) == "$" + OneDigit(n) + "\r\n" + arg + "\r\n"
  {}

  /** And those of a command. */
  lemma PrintedPair(a: string, b: string)
    ensures Print([a, b]) == "*2\r\n" + (PrintArg(a) + PrintArg(b))
  {
    var args, last: Argv := [a, b], [b];
    assert args[1..] == last && last[1..] == [];
    assert PrintArgs(last) == PrintArg(b) + PrintArgs(last[1..]);
    assert PrintArgs(args) == PrintArg(a) + PrintArgs(last);
    assert Dec(2) == "2";
  }
}
