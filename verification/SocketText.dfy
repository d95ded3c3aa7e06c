/** What the socket parser's texts and answers are, without its own vocabulary: the
    printed address read back, the fields that do not decode, the lines of a table, and
    how often a match is reported. */
module SocketText {
  import opened Results
  import opened Model
  import opened Seqs
  import opened Numerals
  import opened StatLine
  import opened Sockets

  // ---- The printed IPv4 address -----------------------------------------------------------

  /** The parts of the text between the separators. */
  function Parts(sep: char, s: string): seq<string>
    decreases |s|
  {
    match FirstIndex(c => c == sep, s)
    case None => [s]
    case Some(i) => [s[..i]] + Parts(sep, s[i + 1..])
  }

  lemma PartFirst(sep: char, part: string, rest: string)
    requires sep !in part
    ensures Parts(sep, part + [sep] + rest) == [part] + Parts(sep, rest)
    ensures Parts(sep, part) == [part]
  {
    var s := part + [sep] + rest;
    assert s[|part|] == sep && s[..|part|] == part && s[|part| + 1..] == rest;
    assert forall i :: 0 <= i < |part| ==> s[i] != sep;
    assert FirstIndex(c => c == sep, s) == Some(|part|);
  }

  /** The text is four decimal numbers without leading zeros, with dots in between, and
      they are these bytes. */
  predicate DottedQuad(s: string, b: seq<Byte>)
    requires |b| == 4
  {
    var parts := Parts('.', s);
    && |parts| == 4
    && forall i :: 0 <= i < 4 ==>
         && parts[i] != [] && AllDigits(parts[i]) && DigitsValue(parts[i]) == b[i]
         && (parts[i][0] == '0' ==> parts[i] == "0")
  }

  lemma FourParts(p0: string, p1: string, p2: string, p3: string)
    requires '.' !in p0 && '.' !in p1 && '.' !in p2 && '.' !in p3
    ensures Parts('.', p0 + "." + p1 + "." + p2 + "." + p3) == [p0, p1, p2, p3]
  {
    hide Parts;
    var s2 := p2 + "." + p3;
    var s1 := p1 + "." + s2;
    PartFirst('.', p2, p3);
    PartFirst('.', p1, s2);
    PartFirst('.', p0, s1);
    PartFirst('.', p3, []);
    assert p0 + "." + p1 + "." + p2 + "." + p3 == p0 + "." + s1;
  }

  lemma ByteText(b: Byte)
    ensures var s := NatText(b);
            '.' !in s && s != [] && AllDigits(s) && DigitsValue(s) == b && (s[0] == '0' ==> s == "0")
  {
    hide NatText, DigitsValue;
    NatTextValue(b);
    NoLeadingZero(b);
    var s := NatText(b);
    assert forall i :: 0 <= i < |s| ==> IsDigit(s[i]);
  }

  /** The printed IPv4 address reads back as its bytes, in their order. */
  lemma AddressReadsBack(b: seq<Byte>, v6: seq<Byte> -> string)
    requires |b| == 4
    ensures DottedQuad(AddrText(b, v6), b)
  {
    hide NatText, DigitsValue, AllDigits, Parts;
    ByteText(b[0]);
    ByteText(b[1]);
    ByteText(b[2]);
    ByteText(b[3]);
    FourParts(NatText(b[0]), NatText(b[1]), NatText(b[2]), NatText(b[3]));
    assert Parts('.', AddrText(b, v6)) == [NatText(b[0]), NatText(b[1]), NatText(b[2]), NatText(b[3])];
  }

  /** The printed "address:port" of a socket, for IPv4 told by what its numbers are and for
      IPv6 up to the notation. */
  ghost predicate Prints(text: string, b: seq<Byte>, port: U16, v6: seq<Byte> -> string)
    requires |b| == 4 || |b| == 16
  {
    exists address: string, digits: string ::
      && text == address + ":" + digits
      && digits != [] && AllDigits(digits) && DigitsValue(digits) == port && (digits[0] == '0' ==> digits == "0")
      && if |b| == 4 then DottedQuad(address, b) else address == v6(b)
  }

  lemma PrintsAddr(b: seq<Byte>, port: U16, v6: seq<Byte> -> string)
    requires |b| == 4 || |b| == 16
    ensures Prints(AddrText(b, v6) + ":" + NatText(port), b, port, v6)
  {
    hide NatText, DigitsValue, DottedQuad;
    NatTextValue(port);
    NoLeadingZero(port);
    if |b| == 4 {
      AddressReadsBack(b, v6);
    }
  }

  /** The kernel's hex text of an address and a port decodes to their printed form. */
  lemma KernelFieldPrints(b: seq<Byte>, port: U16, v6: seq<Byte> -> string)
    requires |b| == 4 || |b| == 16
    ensures var r := DecodeAddrPort(KernelAddrPort(b, port), v6);
            r.Ok? && r.value.1 == port && Prints(r.value.0, b, port, v6)
  {
    hide DecodeAddrPort, KernelAddrPort, AddrText, NatText, Prints;
    DecodeInvertsKernel(b, port, v6);
    PrintsAddr(b, port, v6);
  }

  /** Parsing a printed table yields, socket by socket, its protocol, state and inode and
      the printed form of its two ends. */
  lemma TablePrints(header: string, sockets: seq<Socket>, columns: seq<Columns>, protocol: Protocol,
                    v6: seq<Byte> -> string, i: nat)
    requires |columns| == |sockets| && i < |sockets|
    requires (forall s :: s in sockets ==> s.Valid()) && forall c :: c in columns ==> c.Valid()
    requires forall j :: 0 <= j < |header| ==> header[j] != '\n'
    ensures var lines := Lines(Table(header, sockets, columns));
            && lines != []
            && var r := ParseRows(lines[1..], protocol, v6);
            && r.Ok? && |r.value| == |sockets|
            && var c, s := r.value[i], sockets[i];
            && c.protocol == protocol && c.state == Some(s.state) && c.inode == s.inode
            && |s.local| in {4, 16} && |s.remote| in {4, 16}
            && Prints(c.localAddr, s.local, s.localPort, v6) && Prints(c.remoteAddr, s.remote, s.remotePort, v6)
  {
    hide Lines, Table, ParseRows, AddrText, NatText, Prints;
    ParseInvertsTable(header, sockets, columns, protocol, v6);
    assert sockets[i].Valid();
    PrintsAddr(sockets[i].local, sockets[i].localPort, v6);
    PrintsAddr(sockets[i].remote, sockets[i].remotePort, v6);
  }

  // ---- Fields that do not decode -------------------------------------------------------------

  function Pair(hex: string, i: nat): Option<nat>
    requires 2 * i + 2 <= |hex|
  {
    ParseHex(hex[2 * i..2 * i + 2], 255)
  }

  predicate AllPairs(hex: string) {
    forall i :: 0 <= i < |hex| / 2 ==> Pair(hex, i).Some?
  }

  lemma PairLater(hex: string, i: nat)
    requires 2 * i + 4 <= |hex|
    ensures Pair(hex[2..], i) == Pair(hex, i + 1)
  {
    assert hex[2..][2 * i..2 * i + 2] == hex[2 * (i + 1)..2 * (i + 1) + 2];
  }

  lemma PairsLater(hex: string)
    requires |hex| >= 2
    ensures AllPairs(hex) <==> Pair(hex, 0).Some? && AllPairs(hex[2..])
  {
    hide Pair;
    forall i | 0 <= i < |hex[2..]| / 2 ensures Pair(hex[2..], i) == Pair(hex, i + 1) {
      PairLater(hex, i);
    }
    if Pair(hex, 0).Some? && AllPairs(hex[2..]) {
      forall i | 0 <= i < |hex| / 2 ensures Pair(hex, i).Some? {
        assert i > 0 ==> Pair(hex[2..], i - 1).Some?;
      }
    }
    if AllPairs(hex) {
      forall i | 0 <= i < |hex[2..]| / 2 ensures Pair(hex[2..], i).Some? {
        assert Pair(hex, i + 1).Some?;
      }
    }
  }

  function PairValues(hex: string): seq<nat>
    requires AllPairs(hex)
  {
    seq(|hex| / 2, i requires 0 <= i < |hex| / 2 => Pair(hex, i).value)
  }

  lemma PairValuesLater(hex: string)
    requires |hex| >= 2 && AllPairs(hex) && AllPairs(hex[2..])
    ensures PairValues(hex) == [Pair(hex, 0).value] + PairValues(hex[2..])
  {
    hide Pair;
    var rest := hex[2..];
    forall i | 0 <= i < |rest| / 2 ensures Pair(rest, i) == Pair(hex, i + 1) {
      PairLater(hex, i);
    }
  }

  /** What the loop over the digit pairs makes of any text. */
  lemma {:induction false} HexBytesOf(hex: string)
    ensures HexBytes(hex) ==
            if !AllPairs(hex) then Err(BadAddress)
            else if |hex| % 2 == 1 then Err(SliceOutOfRange)
            else Ok(PairValues(hex))
    decreases |hex|
  {
    hide ParseHex, AllPairs, PairValues;
    if |hex| >= 2 {
      HexBytesOf(hex[2..]);
      PairsLater(hex);
      assert hex[0..2] == hex[..2];
      assert Pair(hex, 0) == ParseHex(hex[..2], 255);
      if AllPairs(hex) {
        PairValuesLater(hex);
      }
    } else {
      NoPairs(hex);
    }
  }

  lemma NoPairs(hex: string)
    requires |hex| < 2
    ensures AllPairs(hex) && PairValues(hex) == []
  {
  }

  /** Exactly which address texts decode and how the others fail. */
  lemma AddressDecodes(hex: string)
    ensures var r := DecodeAddr(hex);
            && (r.Ok? <==> AllPairs(hex) && |hex| in {8, 32})
            && (r.Ok? ==> |r.value| == |hex| / 2)
            && (r == Err(BadAddress) <==> !AllPairs(hex))
            && (r == Err(SliceOutOfRange) <==> AllPairs(hex) && |hex| % 2 == 1)
            && (r.Err? && r.error.BadLength? <==> AllPairs(hex) && |hex| % 2 == 0 && |hex| !in {8, 32})
            && (r.Err? && r.error.BadLength? ==> r.error.bytes == |hex| / 2)
            && (r.Err? ==> r.error.BadAddress? || r.error.SliceOutOfRange? || r.error.BadLength?)
  {
    hide AllPairs, Pair, HexBytes;
    HexBytesOf(hex);
  }

  /** Byte k of word i is the pair of digits that many places from the word's end. */
  lemma AddressBytes(hex: string, i: nat, k: nat)
    requires DecodeAddr(hex).Ok? && 8 * i < |hex| && k < 4
    ensures |DecodeAddr(hex).value| == |hex| / 2 && |hex| % 8 == 0
    ensures Some(DecodeAddr(hex).value[4 * i + k]) == Pair(hex, 4 * i + (3 - k))
  {
    hide AllPairs, Pair, HexBytes;
    AddressDecodes(hex);
    HexBytesOf(hex);
    assert (4 * i + k) / 4 == i && (4 * i + k) % 4 == k;
    AllPairsAt(hex, 4 * i + (3 - k));
  }

  lemma AllPairsAt(hex: string, i: nat)
    requires AllPairs(hex) && 2 * i + 2 <= |hex|
    ensures Pair(hex, i).Some?
  {
  }

  /** A field without a colon is reported as such; otherwise the port is the text after
      the first colon and is checked before the address. */
  lemma FieldDecodes(address: string, port: string, v6: seq<Byte> -> string)
    requires ':' !in address
    ensures DecodeAddrPort(address, v6) == Err(MissingColon)
    ensures DecodeAddr(address).Ok? ==> |DecodeAddr(address).value| in {4, 16}
    ensures var r, p, a := DecodeAddrPort(address + ":" + port, v6), ParseHex(port, 0xFFFF), DecodeAddr(address);
            && (r == Err(BadPort) <==> p.None?)
            && (p.Some? && a.Err? ==> r == Err(a.error))
            && (p.Some? && a.Ok? ==> r.Ok? && r.value.1 == p.value && |a.value| in {4, 16}
                                     && Prints(r.value.0, a.value, p.value, v6))
  {
    hide HexValue, DecodeAddr, NatText, Prints, AddrText, AllPairs;
    AddressDecodes(address);
    var field := address + ":" + port;
    assert field[|address|] == ':' && field[..|address|] == address && field[|address| + 1..] == port;
    assert forall i :: 0 <= i < |address| ==> field[i] == address[i];
    assert FirstIndex(c => c == ':', field) == Some(|address|);
    if ParseHex(port, 0xFFFF).Some? && DecodeAddr(address).Ok? {
      PrintsAddr(DecodeAddr(address).value, ParseHex(port, 0xFFFF).value, v6);
    }
  }

  /** What `parse::<u64>` accepts: digits, perhaps after a plus, never after a minus. */
  lemma UnsignedParses(s: string, v: U64)
    ensures ParseUnsigned(s) == Some(v)
            <==> exists d: string :: d != [] && AllDigits(d) && (s == d || s == "+" + d) && DigitsValue(d) == v
  {
    hide ParseInt, DigitsValue;
    ParseIntIff(s, 0, 0xFFFF_FFFF_FFFF_FFFF, v);
    if d: string :| d != [] && AllDigits(d) && (s == d || s == "+" + d) && DigitsValue(d) == v {
      assert IsDigit(d[0]);
      assert Numeral(s, v);
    }
    if ParseUnsigned(s) == Some(v) {
      assert Numeral(s, v);
    }
  }

  /** The fields of a row are checked in the order local, remote, state, inode. */
  lemma RowErrors(fields: seq<string>, protocol: Protocol, v6: seq<Byte> -> string)
    requires |fields| >= 10
    ensures var r := ParseRow(fields, protocol, v6);
            var local, remote := DecodeAddrPort(fields[1], v6), DecodeAddrPort(fields[2], v6);
            && (local.Err? ==> r == Err(local.error))
            && (local.Ok? && remote.Err? ==> r == Err(remote.error))
            && (local.Ok? && remote.Ok? ==>
                && (r == Err(BadState) <==> ParseHex(fields[3], 255).None?)
                && (r == Err(BadInode) <==> ParseHex(fields[3], 255).Some? && ParseUnsigned(fields[9]).None?)
                && (r.Ok? ==> r.value.Some?))
  {
    hide DecodeAddrPort, ParseHex, ParseUnsigned;
  }

  // ---- Lines and rows ------------------------------------------------------------------------

  /** The laws of splitting into lines, which determine it: a newline ends a line, one
      carriage return before it is dropped, and a last line needs no newline. */
  lemma LinesLaws(line: string, rest: string)
    requires '\n' !in line
    ensures Lines([]) == []
    ensures line != [] ==> Lines(line) == [line]
    ensures Lines(line + "\r\n" + rest) == [line] + Lines(rest)
    ensures line == [] || Last(line) != '\r' ==> Lines(line + "\n" + rest) == [line] + Lines(rest)
  {
    hide Lines;
    LineFirst(line, rest);
    LineFirst(line + "\r", rest);
    assert Last(line + "\r") == '\r' && Front(line + "\r") == line;
    assert line + "\r\n" + rest == line + "\r" + "\n" + rest;
    NoLines();
    OnlyLine(line);
  }

  lemma OnlyLine(line: string)
    requires '\n' !in line
    ensures line != [] ==> Lines(line) == [line]
  {
    assert FirstIndex(c => c == '\n', line).None?;
  }

  /** A table parses part by part: what comes before the first error is kept in order, and
      the first error is the answer. */
  lemma {:induction false} RowsAppend(a: seq<string>, b: seq<string>, protocol: Protocol, v6: seq<Byte> -> string)
    ensures var p, q, r := ParseRows(a, protocol, v6), ParseRows(b, protocol, v6), ParseRows(a + b, protocol, v6);
            if p.Err? then r == p else if q.Err? then r == q else r == Ok(p.value + q.value)
  {
    hide ParseRow, Split;
    if b == [] {
      assert a + b == a;
      assert forall conns: seq<Connection> :: conns + [] == conns;
    } else {
      assert Front(a + b) == a + Front(b);
      RowsAppend(a, Front(b), protocol, v6);
      var p, q := ParseRows(a, protocol, v6), ParseRows(Front(b), protocol, v6);
      if p.Ok? && q.Ok? {
        assert forall c :: p.value + (q.value + [c]) == p.value + q.value + [c];
      }
    }
  }

  /** One row alone: nothing if it is too short, its error, or its connection. */
  lemma OneRow(row: string, protocol: Protocol, v6: seq<Byte> -> string)
    ensures |Split(row)| < 10 ==> ParseRows([row], protocol, v6) == Ok([])
    ensures ParseRow(Split(row), protocol, v6).Err? ==>
              ParseRows([row], protocol, v6) == Err(ParseRow(Split(row), protocol, v6).error)
    ensures forall c :: ParseRow(Split(row), protocol, v6) == Ok(Some(c)) ==> ParseRows([row], protocol, v6) == Ok([c])
  {
    hide Split;
    assert Front([row]) == [] && Last([row]) == row;
    assert forall c: Connection :: [] + [c] == [c];
  }

  // ---- How often a match is reported ------------------------------------------------------------

  lemma {:induction false} MatchesOfCount(pid: Pid, conns: seq<Connection>, port: U16, p: Pid, c: Connection)
    ensures multiset(MatchesOf(pid, conns, port))[(p, c)] ==
            if p == pid && EndsWith(c.localAddr, ":" + NatText(port)) then multiset(conns)[c] else 0
  {
    hide NatText, EndsWith;
    if conns != [] {
      MatchesOfCount(pid, Front(conns), port, p, c);
      assert conns == Front(conns) + [Last(conns)];
    }
  }

  /** A matching connection is reported for a live pid exactly as often as it was read. */
  lemma {:induction false} MatchesInCount(order: seq<Pid>, conns: map<Pid, seq<Connection>>, port: U16,
                                          pid: Pid, c: Connection)
    requires NoDup(order)
    ensures multiset(MatchesIn(order, conns, port))[(pid, c)] ==
            if pid in order && pid in conns && EndsWith(c.localAddr, ":" + NatText(port))
            then multiset(conns[pid])[c] else 0
  {
    hide NatText, EndsWith;
    if order != [] {
      MatchesInCount(Front(order), conns, port, pid, c);
      if Last(order) in conns {
        MatchesOfCount(Last(order), conns[Last(order)], port, pid, c);
      }
      assert order == Front(order) + [Last(order)];
    }
  }

  /** The matches of a pid come in the order its connections were read. */
  lemma {:induction false} MatchesInOrder(pid: Pid, conns: seq<Connection>, port: U16, i: nat, j: nat)
    returns (k: nat, l: nat)
    requires i < j < |MatchesOf(pid, conns, port)|
    ensures k < l < |conns|
    ensures MatchesOf(pid, conns, port)[i] == (pid, conns[k]) && MatchesOf(pid, conns, port)[j] == (pid, conns[l])
  {
    hide NatText, EndsWith;
    var before := MatchesOf(pid, Front(conns), port);
    if j < |before| {
      k, l := MatchesInOrder(pid, Front(conns), port, i, j);
    } else {
      MatchOf(pid, Front(conns), port, before[i]);
      k :| 0 <= k < |conns| - 1 && conns[k] == before[i].1;
      l := |conns| - 1;
    }
  }
}
