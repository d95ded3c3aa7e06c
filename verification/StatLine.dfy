/** Parsing `/proc/[pid]/stat` lines, against a printer for the format of
    proc_pid_stat(5). The command name may contain anything, including blanks,
    newlines and unbalanced parentheses. */
module StatLine {
  import opened Results
  import opened Model
  import opened Seqs
  import opened Numerals

  type I32 = x: int | -0x8000_0000 <= x < 0x8000_0000
  type U32 = x: int | 0 <= x < 0x1_0000_0000

  datatype StatFields = StatFields(
    id: Pid, comm: string, state: char, ppid: Pid, pgrp: Pid, session: Pid,
    utime: U64, stime: U64, priority: I32, nice: I32, numThreads: U32, starttime: U64)

  datatype StatError =
    | MissingOpen
    | MissingClose
    | MalformedDelimiters
    | TooFewFields(found: nat)
    | BadPid
    | BadInteger(field: nat)

  // ---- Text ---------------------------------------------------------------------------

  /** `char::is_whitespace`: the Unicode White_Space property. */
  predicate IsSpace(c: char) {
    var n := c as int;
    || 9 <= n <= 13 || n == 32 || n == 0x85 || n == 0xA0 || n == 0x1680
    || 0x2000 <= n <= 0x200A || n == 0x2028 || n == 0x2029 || n == 0x202F || n == 0x205F || n == 0x3000
  }

  function TrimStart(s: string): string {
    if s != [] && IsSpace(s[0]) then TrimStart(s[1..]) else s
  }

  function TrimEnd(s: string): string {
    if s != [] && IsSpace(Last(s)) then TrimEnd(Front(s)) else s
  }

  function WordLength(s: string): (n: nat)
    ensures n <= |s|
    ensures s != [] && !IsSpace(s[0]) ==> n > 0
  {
    if s == [] || IsSpace(s[0]) then 0 else 1 + WordLength(s[1..])
  }

  lemma TrimShrinks(s: string)
    ensures |TrimStart(s)| <= |s|
    ensures TrimStart(s) != [] ==> !IsSpace(TrimStart(s)[0])
  {
  }

  /** `split_whitespace`. */
  function Split(s: string): seq<string>
    decreases |s|
  {
    var t := TrimStart(s);
    TrimShrinks(s);
    if t == [] then [] else [t[..WordLength(t)]] + Split(t[WordLength(t)..])
  }

  // ---- The parser ------------------------------------------------------------------------

  const I64_MIN := -0x8000_0000_0000_0000
  const I64_MAX := 0x7FFF_FFFF_FFFF_FFFF

  function AsU64(x: I64): U64 { if x < 0 then x + 0x1_0000_0000_0000_0000 else x }

  function AsU32(x: I64): U32 { x % 0x1_0000_0000 }

  function AsI32(x: I64): I32 { if AsU32(x) < 0x8000_0000 then AsU32(x) else AsU32(x) - 0x1_0000_0000 }

  const MIN_FIELDS := 20

  /** Field n of the format, of those after the command name, as an i64. */
  function NumField(fields: seq<string>, n: nat): (r: Result<I64, StatError>)
    requires 3 <= n && n - 3 < |fields|
  {
    match ParseInt(fields[n - 3], I64_MIN, I64_MAX)
    case Some(v) => Ok(v)
    case None => Err(BadInteger(n))
  }

  /** The numeric fields the program needs, in the order it parses them. */
  function NumFields(fields: seq<string>, wanted: seq<nat>): (r: Result<seq<I64>, StatError>)
    requires forall i :: 0 <= i < |wanted| ==> 3 <= wanted[i] < |fields| + 3
    ensures r.Ok? ==> |r.value| == |wanted|
  {
    if wanted == [] then Ok([])
    else
      match NumField(fields, wanted[0])
      case Err(e) => Err(e)
      case Ok(v) =>
        match NumFields(fields, wanted[1..])
        case Err(e) => Err(e)
        case Ok(vs) => Ok([v] + vs)
  }

  const WANTED: seq<nat> := [4, 5, 6, 14, 15, 18, 19, 20, 22]

  function ParseFields(id: Pid, comm: string, fields: seq<string>): Result<StatFields, StatError>
    requires |fields| >= MIN_FIELDS
  {
    match NumFields(fields, WANTED)
    case Err(e) => Err(e)
    case Ok(v) =>
      Ok(StatFields(id, comm, if fields[0] == [] then '?' else fields[0][0],
                    AsI32(v[0]), AsI32(v[1]), AsI32(v[2]), AsU64(v[3]), AsU64(v[4]),
                    AsI32(v[5]), AsI32(v[6]), AsU32(v[7]), AsU64(v[8])))
  }

  /** `parse_stat_line`. */
  function ParseStatLine(line: string): Result<StatFields, StatError> {
    var content := TrimEnd(line);
    match (FirstIndex(c => c == '(', content), LastIndex(c => c == ')', content))
    case (None, _) => Err(MissingOpen)
    case (Some(_), None) => Err(MissingClose)
    case (Some(open), Some(close)) =>
      if close <= open then Err(MalformedDelimiters)
      else
        var fields := Split(TrimStart(content[close + 1..]));
        if |fields| < MIN_FIELDS then Err(TooFewFields(|fields|))
        else
          match ParseInt(TrimStart(TrimEnd(content[..open])), -0x8000_0000, 0x7FFF_FFFF)
          case None => Err(BadPid)
          case Some(id) => ParseFields(id, content[open + 1..close], fields)
  }

  // ---- The printer -------------------------------------------------------------------------

  /** A field as the kernel prints it: not empty, no blanks, no closing parenthesis. */
  predicate Token(s: string) {
    s != [] && forall i :: 0 <= i < |s| ==> !IsSpace(s[i]) && s[i] != ')'
  }

  predicate Word(s: string) { s != [] && forall i :: 0 <= i < |s| ==> !IsSpace(s[i]) }

  /** The fields the program skips: 7 to 13, 16 and 17, 21, and those after 22. */
  datatype Skipped = Skipped(a: seq<string>, b: seq<string>, c: string, rest: seq<string>)
  {
    predicate Valid() {
      |a| == 7 && |b| == 2 && forall s :: s in a + b + [c] + rest ==> Token(s)
    }
  }

  function Fields(f: StatFields, k: Skipped): seq<string> {
    [[f.state], IntText(f.ppid), IntText(f.pgrp), IntText(f.session)] + k.a
    + [IntText(f.utime), IntText(f.stime)] + k.b
    + [IntText(f.priority), IntText(f.nice), IntText(f.numThreads), k.c, IntText(f.starttime)] + k.rest
  }

  function Join(words: seq<string>): string {
    if words == [] then []
    else if |words| == 1 then words[0]
    else words[0] + " " + Join(words[1..])
  }

  /** The line for f, followed by any blanks. */
  function PrintStatLine(f: StatFields, k: Skipped, blanks: string): string {
    IntText(f.id) + " (" + f.comm + ") " + Join(Fields(f, k)) + blanks
  }

  // ---- Inversion -----------------------------------------------------------------------------

  lemma {:induction false} WordThenBlank(w: string, rest: string)
    requires Word(w) && (rest == [] || IsSpace(rest[0]))
    ensures WordLength(w + rest) == |w|
    decreases |w|
  {
    assert (w + rest)[1..] == w[1..] + rest;
    if |w| > 1 {
      WordThenBlank(w[1..], rest);
    }
  }

  lemma SplitWord(w: string, rest: string)
    requires Token(w) && (rest == [] || IsSpace(rest[0]))
    ensures Split(w + rest) == [w] + Split(rest)
  {
    WordThenBlank(w, rest);
    assert TrimStart(w + rest) == w + rest;
  }

  /** The laws of splitting at blanks, which determine it. */
  lemma SplitLaws(blank: char, w: string, rest: string)
    requires IsSpace(blank) && Word(w)
    ensures Split([]) == []
    ensures Split([blank] + rest) == Split(rest)
    ensures Split(w) == [w]
    ensures Split(w + [blank] + rest) == [w] + Split(rest)
  {
    assert ([blank] + rest)[1..] == rest;
    var more := [blank] + rest;
    WordThenBlank(w, more);
    WordThenBlank(w, []);
    assert w + [] == w && w + [blank] + rest == w + more;
    assert TrimStart(w + more) == w + more && TrimStart(w) == w;
    assert (w + more)[..|w|] == w && (w + more)[|w|..] == more && w[..|w|] == w && w[|w|..] == [];
  }

  lemma SplitNothing()
    ensures Split([]) == []
  {
  }

  lemma {:induction false} SplitJoined(words: seq<string>)
    requires forall w :: w in words ==> Token(w)
    ensures Split(Join(words)) == words
    decreases |words|
  {
    hide Split, TrimStart, Token;
    SplitNothing();
    if |words| == 1 {
      SplitWord(words[0], []);
      assert words[0] + [] == words[0];
    } else if |words| > 1 {
      var more := Join(words[1..]);
      SplitJoined(words[1..]);
      SplitWord(words[0], " " + more);
      SkipBlank(more);
      assert words[0] + " " + more == words[0] + (" " + more);
    }
  }

  lemma SkipBlank(s: string)
    ensures TrimStart(" " + s) == TrimStart(s)
    ensures Split(" " + s) == Split(s)
  {
    assert (" " + s)[1..] == s;
  }

  lemma {:induction false} TrimBlanks(s: string, blanks: string)
    requires forall i :: 0 <= i < |blanks| ==> IsSpace(blanks[i])
    requires s != [] && !IsSpace(Last(s))
    ensures TrimEnd(s + blanks) == s
    decreases |blanks|
  {
    if blanks == [] {
      assert s + blanks == s;
    } else {
      assert Front(s + blanks) == s + Front(blanks);
      TrimBlanks(s, Front(blanks));
    }
  }

  lemma {:induction false} JoinedText(words: seq<string>)
    requires words != [] && forall w :: w in words ==> Token(w)
    ensures var s := Join(words); s != [] && !IsSpace(s[0]) && !IsSpace(Last(s))
                                  && forall i :: 0 <= i < |s| ==> s[i] != ')'
    decreases |words|
  {
    assert Token(words[0]);
    if |words| > 1 {
      JoinedText(words[1..]);
    }
  }

  lemma IntTextToken(i: int)
    ensures Token(IntText(i)) && forall j :: 0 <= j < |IntText(i)| ==> IntText(i)[j] != '('
  {
    hide NatText;
    var digits := NatText(if i < 0 then -i else i);
    assert forall j :: 0 <= j < |digits| ==> IsDigit(digits[j]);
  }

  predicate FitsI64(v: int) { I64_MIN <= v <= I64_MAX }

  /** How many of the values come before the first that does not fit. */
  function Fitting(values: seq<int>): (n: nat)
    ensures n <= |values| && (n < |values| ==> !FitsI64(values[n]))
    ensures forall i :: 0 <= i < n ==> FitsI64(values[i])
  {
    if values == [] || !FitsI64(values[0]) then 0 else 1 + Fitting(values[1..])
  }

  lemma {:induction false} NumFieldsPrinted(fields: seq<string>, wanted: seq<nat>, values: seq<int>)
    requires |values| == |wanted| && forall i :: 0 <= i < |wanted| ==> 3 <= wanted[i] < |fields| + 3
    requires forall i :: 0 <= i < |wanted| ==> fields[wanted[i] - 3] == IntText(values[i])
    ensures var r, n := NumFields(fields, wanted), Fitting(values);
            if n == |values| then r.Ok? && r.value == values else r == Err(BadInteger(wanted[n]))
    decreases |wanted|
  {
    hide IntText, ParseInt;
    if wanted != [] {
      ParsePrinted(values[0], I64_MIN, I64_MAX);
      NumFieldsPrinted(fields, wanted[1..], values[1..]);
    }
  }

  function Values(f: StatFields): seq<int> {
    [f.ppid, f.pgrp, f.session, f.utime, f.stime, f.priority, f.nice, f.numThreads, f.starttime]
  }

  lemma FieldsInPlace(f: StatFields, k: Skipped)
    requires k.Valid()
    ensures |Fields(f, k)| >= MIN_FIELDS && Fields(f, k)[0] == [f.state] && |Values(f)| == |WANTED|
    ensures forall i :: 0 <= i < |WANTED| ==>
              3 <= WANTED[i] < |Fields(f, k)| + 3 && Fields(f, k)[WANTED[i] - 3] == IntText(Values(f)[i])
  {
    hide IntText;
    var s := Fields(f, k);
    assert s[1] == IntText(f.ppid) && s[2] == IntText(f.pgrp) && s[3] == IntText(f.session);
    assert s[11] == IntText(f.utime) && s[12] == IntText(f.stime);
    assert s[15] == IntText(f.priority) && s[16] == IntText(f.nice) && s[17] == IntText(f.numThreads);
    assert s[19] == IntText(f.starttime);
  }

  lemma FieldsAreTokens(f: StatFields, k: Skipped)
    requires k.Valid() && Token([f.state])
    ensures forall w :: w in Fields(f, k) ==> Token(w)
  {
    hide IntText, Token;
    forall v | v in Values(f) ensures Token(IntText(v)) { IntTextToken(v); }
    forall w | w in Fields(f, k) ensures Token(w) {
      if w in k.a || w in k.b || w == k.c || w in k.rest {
        assert w in k.a + k.b + [k.c] + k.rest;
      } else if w != [f.state] {
        assert exists v :: v in Values(f) && w == IntText(v) by {
          assert Values(f)[0] in Values(f) && Values(f)[1] in Values(f) && Values(f)[2] in Values(f);
          assert Values(f)[3] in Values(f) && Values(f)[4] in Values(f) && Values(f)[5] in Values(f);
          assert Values(f)[6] in Values(f) && Values(f)[7] in Values(f) && Values(f)[8] in Values(f);
        }
      }
    }
  }

  /** What parsing the fields of a printed line gives: the record, unless one of the
      three 64-bit counters does not fit a signed 64-bit integer. */
  function Reparsed(f: StatFields): Result<StatFields, StatError> {
    if f.utime > I64_MAX then Err(BadInteger(14))
    else if f.stime > I64_MAX then Err(BadInteger(15))
    else if f.starttime > I64_MAX then Err(BadInteger(22))
    else Ok(f)
  }

  lemma CastsKeep(x: I64)
    ensures -0x8000_0000 <= x < 0x8000_0000 ==> AsI32(x) == x
    ensures 0 <= x < 0x1_0000_0000 ==> AsU32(x) == x
    ensures 0 <= x ==> AsU64(x) == x
  {
  }

  /** A cast keeps the low bits of a value that does not fit. */
  lemma CastsKeepBits(x: I64)
    ensures (AsI32(x) - x) % 0x1_0000_0000 == 0
    ensures (AsU32(x) - x) % 0x1_0000_0000 == 0
    ensures (AsU64(x) - x) % 0x1_0000_0000_0000_0000 == 0
  {
  }

  lemma RecordRebuilt(f: StatFields, fields: seq<string>)
    requires |fields| >= MIN_FIELDS && fields[0] == [f.state]
    requires NumFields(fields, WANTED).Ok? && NumFields(fields, WANTED).value == Values(f)
    ensures ParseFields(f.id, f.comm, fields) == Ok(f)
  {
    hide NumFields, AsI32, AsU32, AsU64;
    var v := NumFields(fields, WANTED).value;
    CastsKeep(v[0]);
    CastsKeep(v[1]);
    CastsKeep(v[2]);
    CastsKeep(v[3]);
    CastsKeep(v[4]);
    CastsKeep(v[5]);
    CastsKeep(v[6]);
    CastsKeep(v[7]);
    CastsKeep(v[8]);
  }

  lemma FieldsReparse(f: StatFields, k: Skipped)
    requires k.Valid() && |Fields(f, k)| >= MIN_FIELDS
    ensures ParseFields(f.id, f.comm, Fields(f, k)) == Reparsed(f)
  {
    hide IntText, ParseInt, Fields, NumFields, AsI32, AsU32, AsU64, Fitting, Values;
    FieldsInPlace(f, k);
    NumFieldsPrinted(Fields(f, k), WANTED, Values(f));
    CountersDecide(f);
    if Fitting(Values(f)) == 9 {
      RecordRebuilt(f, Fields(f, k));
    }
  }

  /** Only the three 64-bit counters can fail to fit. */
  lemma CountersDecide(f: StatFields)
    ensures var n := Fitting(Values(f));
            && (n == 9 <==> f.utime <= I64_MAX && f.stime <= I64_MAX && f.starttime <= I64_MAX)
            && (n < 9 ==> n == if f.utime > I64_MAX then 3 else if f.stime > I64_MAX then 4 else 8)
  {
    hide Fitting;
    var n, v := Fitting(Values(f)), Values(f);
    assert FitsI64(v[0]) && FitsI64(v[1]) && FitsI64(v[2]) && FitsI64(v[5]) && FitsI64(v[6]) && FitsI64(v[7]);
    assert v[3] == f.utime && v[4] == f.stime && v[8] == f.starttime;
    assert n in {3, 4, 8, 9};
  }

  /** The first '(' and the last ')' of a printed line delimit the command name. */
  lemma Delimiters(id: string, comm: string, joined: string)
    requires forall i :: 0 <= i < |id| ==> id[i] != '('
    requires forall i :: 0 <= i < |joined| ==> joined[i] != ')'
    ensures var content := id + " (" + comm + ") " + joined;
            && FirstIndex(c => c == '(', content) == Some(|id| + 1)
            && LastIndex(c => c == ')', content) == Some(|id| + 2 + |comm|)
  {
    var content := id + " (" + comm + ") " + joined;
    var open, close := |id| + 1, |id| + 2 + |comm|;
    assert content[open] == '(' && content[close] == ')';
    assert forall i :: 0 <= i < open ==> content[i] != '(';
    assert forall i :: close < i < |content| ==> content[i] != ')';
  }

  lemma TrimNumber(i: int)
    ensures TrimStart(TrimEnd(IntText(i) + " ")) == IntText(i)
  {
    hide IntText;
    IntTextToken(i);
    TrimBlanks(IntText(i), " ");
  }

  /** parse_stat_line inverts the format for every command name: the printed line
      parses back to exactly the original fields, if and only if the user time, system
      time and start time fit a signed 64-bit integer; otherwise the first that does
      not is reported. */
  lemma ParseInvertsPrint(f: StatFields, k: Skipped, blanks: string)
    requires k.Valid() && Token([f.state]) && forall i :: 0 <= i < |blanks| ==> IsSpace(blanks[i])
    ensures ParseStatLine(PrintStatLine(f, k, blanks)) == Reparsed(f)
  {
    hide IntText, ParseInt, Fields, Join, Split, TrimStart, TrimEnd, Token;
    hide FirstIndex, LastIndex, ParseFields, Reparsed;
    var id, joined := IntText(f.id), Join(Fields(f, k));
    var content := id + " (" + f.comm + ") " + joined;
    FieldsInPlace(f, k);
    FieldsAreTokens(f, k);
    JoinedText(Fields(f, k));
    IntTextToken(f.id);
    TrimBlanks(content, blanks);
    Delimiters(id, f.comm, joined);
    var open, close := |id| + 1, |id| + 2 + |f.comm|;
    assert content[..open] == id + " ";
    assert content[open + 1..close] == f.comm;
    assert content[close + 1..] == " " + joined;
    TrimNumber(f.id);
    ParsePrinted(f.id, -0x8000_0000, 0x7FFF_FFFF);
    SkipBlank(joined);
    TrimmedAlready(joined);
    SplitJoined(Fields(f, k));
    FieldsReparse(f, k);
  }

  lemma TrimmedAlready(s: string)
    requires s != [] && !IsSpace(s[0])
    ensures TrimStart(s) == s
  {
  }

  // ---- Lines of any other form ------------------------------------------------------------------

  lemma {:induction false} TrimEndAfter(head: string, tail: string)
    requires head != [] && !IsSpace(Last(head))
    ensures TrimEnd(head + tail) == head + TrimEnd(tail)
    decreases |tail|
  {
    if tail == [] {
      assert head + tail == head;
    } else {
      assert Last(head + tail) == Last(tail) && Front(head + tail) == head + Front(tail);
      if IsSpace(Last(tail)) {
        TrimEndAfter(head, Front(tail));
      }
    }
  }

  lemma {:induction false} TrimEndKeeps(s: string, c: char)
    requires !IsSpace(c)
    ensures c in TrimEnd(s) <==> c in s
  {
    if s != [] && IsSpace(Last(s)) {
      TrimEndKeeps(Front(s), c);
      assert s == Front(s) + [Last(s)];
    }
  }

  lemma PlainWord()
    ensures Word("w")
  {
  }

  lemma {:induction false} BlankLast(s: string, blank: char)
    requires IsSpace(blank)
    ensures Split(s + [blank]) == Split(s)
    decreases |s|
  {
    hide Split, IsSpace, Word;
    assert Word("w") by { PlainWord(); }
    if s == [] {
      SplitLaws(blank, "w", []);
      assert s + [blank] == [blank] + [];
    } else if IsSpace(s[0]) {
      BlankLast(s[1..], blank);
      SplitLaws(s[0], "w", s[1..]);
      SplitLaws(s[0], "w", s[1..] + [blank]);
      assert s == [s[0]] + s[1..] && s + [blank] == [s[0]] + (s[1..] + [blank]);
    } else {
      var n := WordLength(s);
      FirstWord(s);
      var w, rest := s[..n], s[n..];
      assert s == w + rest;
      if rest == [] {
        SplitLaws(blank, w, []);
        assert s == w && s + [blank] == w + [blank] + [];
      } else {
        BlankLast(rest[1..], blank);
        SplitLaws(rest[0], w, rest[1..]);
        SplitLaws(rest[0], w, rest[1..] + [blank]);
        assert s == w + [rest[0]] + rest[1..] && s + [blank] == w + [rest[0]] + (rest[1..] + [blank]);
      }
    }
  }

  lemma {:induction false} FirstWord(s: string)
    requires s != [] && !IsSpace(s[0])
    ensures Word(s[..WordLength(s)]) && (WordLength(s) < |s| ==> IsSpace(s[WordLength(s)]))
    decreases |s|
  {
    if |s| > 1 && !IsSpace(s[1]) {
      FirstWord(s[1..]);
      var t := s[1..];
      assert forall i :: 1 <= i < WordLength(s) ==> s[i] == t[..WordLength(t)][i - 1];
    }
  }

  lemma {:induction false} BlanksAround(s: string)
    ensures Split(TrimEnd(s)) == Split(s) && Split(TrimStart(s)) == Split(s)
  {
    TrimTwice(s);
    if s != [] && IsSpace(Last(s)) {
      BlanksAround(Front(s));
      BlankLast(Front(s), Last(s));
      assert s == Front(s) + [Last(s)];
    }
  }

  lemma {:induction false} TrimTwice(s: string)
    ensures TrimStart(TrimStart(s)) == TrimStart(s)
  {
    if s != [] && IsSpace(s[0]) {
      TrimTwice(s[1..]);
    }
  }

  /** Every '(' comes after every ')'. */
  predicate Reversed(line: string) {
    forall i, j :: 0 <= i < |line| && 0 <= j < |line| && line[i] == '(' && line[j] == ')' ==> j < i
  }

  /** The first '(' and the last ')' of the trimmed line decide about the whole line. */
  lemma TrimmedParens(line: string)
    ensures var content := TrimEnd(line);
            var open, close := FirstIndex(c => c == '(', content), LastIndex(c => c == ')', content);
            && (open.None? <==> '(' !in line) && (close.None? <==> ')' !in line)
            && (open.Some? && close.Some? ==> (close.value <= open.value <==> Reversed(line)))
  {
    hide TrimEnd, FirstIndex, LastIndex;
    var content := TrimEnd(line);
    TrimEndKeeps(line, '(');
    TrimEndKeeps(line, ')');
    TrimmedIsPrefix(line);
    var open, close := FirstIndex(c => c == '(', content), LastIndex(c => c == ')', content);
    if open.Some? && close.Some? {
      assert line[open.value] == '(' && line[close.value] == ')';
      forall i, j | 0 <= i < |line| && 0 <= j < |line| && line[i] == '(' && line[j] == ')'
        ensures open.value <= i && j <= close.value
      {
        assert i < |content| && content[i] == '(' && j < |content| && content[j] == ')';
      }
    }
  }

  lemma PidRange(s: string)
    ensures var pid := ParseInt(s, -0x8000_0000, 0x7FFF_FFFF);
            pid.Some? ==> -0x8000_0000 <= pid.value < 0x8000_0000
  {
  }

  /** What is missing from a line that has no command name in parentheses. */
  lemma NoCommandName(line: string)
    ensures var r := ParseStatLine(line);
            && (r == Err(MissingOpen) <==> '(' !in line)
            && (r == Err(MissingClose) <==> '(' in line && ')' !in line)
            && (r == Err(MalformedDelimiters) <==> '(' in line && ')' in line && Reversed(line))
  {
    hide Split, ParseInt, ParseFields, TrimEnd, TrimStart, FirstIndex, LastIndex, Reversed;
    var content := TrimEnd(line);
    TrimmedParens(line);
    var open, close := FirstIndex(c => c == '(', content), LastIndex(c => c == ')', content);
    if open.Some? && close.Some? && open.value < close.value {
      var fields := Split(TrimStart(content[close.value + 1..]));
      var text := TrimStart(TrimEnd(content[..open.value]));
      PidRange(text);
      var pid := ParseInt(text, -0x8000_0000, 0x7FFF_FFFF);
      if |fields| >= MIN_FIELDS && pid.Some? {
        FieldErrors(pid.value, content[open.value + 1..close.value], fields);
      }
    }
  }

  lemma {:induction false} TrimmedIsPrefix(s: string)
    ensures TrimEnd(s) <= s && forall i :: |TrimEnd(s)| <= i < |s| ==> IsSpace(s[i])
  {
    if s != [] && IsSpace(Last(s)) {
      TrimmedIsPrefix(Front(s));
    }
  }

  /** The fields themselves give no error about the parentheses. */
  lemma FieldErrors(id: Pid, comm: string, fields: seq<string>)
    requires |fields| >= MIN_FIELDS
    ensures ParseFields(id, comm, fields).Err? ==> ParseFields(id, comm, fields).error.BadInteger?
  {
    hide NumField, AsI32, AsU32, AsU64;
    NumFieldsError(fields, WANTED);
  }

  lemma {:induction false} NumFieldsError(fields: seq<string>, wanted: seq<nat>)
    requires forall i :: 0 <= i < |wanted| ==> 3 <= wanted[i] < |fields| + 3
    ensures NumFields(fields, wanted).Err? ==> NumFields(fields, wanted).error.BadInteger?
  {
    if wanted != [] {
      NumFieldsError(fields, wanted[1..]);
    }
  }

  lemma Parens(id: string, comm: string, rest: string)
    requires '(' !in id && ')' !in rest
    ensures var content, open, close := id + "(" + comm + ")" + rest, |id|, |id| + 1 + |comm|;
            && FirstIndex(c => c == '(', content) == Some(open)
            && LastIndex(c => c == ')', content) == Some(close)
            && content[..open] == id && content[open + 1..close] == comm && content[close + 1..] == rest
  {
    hide FirstIndex, LastIndex;
    var content, open, close := id + "(" + comm + ")" + rest, |id|, |id| + 1 + |comm|;
    assert content[open] == '(' && content[close] == ')';
    assert forall i :: 0 <= i < open ==> content[i] == id[i];
    assert forall i :: close < i < |content| ==> content[i] == rest[i - close - 1];
  }

  /** Any line with a command name in parentheses: the name is taken as it stands, the
      number of fields is checked before the pid and the pid before the other numbers. */
  lemma AnyCommandName(id: string, comm: string, tail: string)
    requires '(' !in id && ')' !in tail
    ensures var fields, pid := Split(tail), ParseInt(TrimStart(TrimEnd(id)), -0x8000_0000, 0x7FFF_FFFF);
            ParseStatLine(id + "(" + comm + ")" + tail) ==
            if |fields| < 20 then Err(TooFewFields(|fields|))
            else if pid.None? then Err(BadPid)
            else ParseFields(pid.value, comm, fields)
  {
    hide Split, ParseInt, ParseFields, TrimEnd, TrimStart, FirstIndex, LastIndex;
    var head := id + "(" + comm + ")";
    var line, content := head + tail, head + TrimEnd(tail);
    assert line == id + "(" + comm + ")" + tail;
    TrimEndAfter(head, tail);
    TrimmedIsPrefix(tail);
    assert content == id + "(" + comm + ")" + TrimEnd(tail);
    Parens(id, comm, TrimEnd(tail));
    BlanksAround(TrimEnd(tail));
    BlanksAround(tail);
  }
}
