/** Reading `/proc/[pid]/net/{tcp,tcp6,udp,udp6}` and finding who has a port, against
    a printer for the kernel's table format. */
module Sockets {
  import opened Results
  import opened Model
  import opened Seqs
  import opened Numerals
  import opened StatLine

  type Byte = x: int | 0 <= x < 256

  datatype AddrError =
    | MissingColon
    | BadPort
    | BadAddress
    | BadLength(bytes: nat)
    | SliceOutOfRange  // the source panics: an odd number of address digits
    | BadState
    | BadInode

  // ---- Addresses ---------------------------------------------------------------------------

  /** The bytes of the hex text, two digits at a time. */
  function HexBytes(hex: string): Result<seq<Byte>, AddrError>
    decreases |hex|
  {
    if hex == [] then Ok([])
    else if |hex| == 1 then Err(SliceOutOfRange)
    else
      match ParseHex(hex[..2], 255)
      case None => Err(BadAddress)
      case Some(b) =>
        match HexBytes(hex[2..])
        case Err(e) => Err(e)
        case Ok(bs) => Ok([b] + bs)
  }

  /** Each 32-bit word byte-reversed in place, the words in their order. */
  function Swapped(b: seq<Byte>): seq<Byte>
    requires |b| % 4 == 0
  {
    seq(|b|, i requires 0 <= i < |b| => b[i / 4 * 4 + 3 - i % 4])
  }

  method SwapWords(bytes: seq<Byte>) returns (out: array<Byte>)
    requires |bytes| == 16
    ensures out[..] == Swapped(bytes)
  {
    out := new Byte[16](_ => 0);
    for word := 0 to 4
      invariant forall i :: 0 <= i < word * 4 ==> out[i] == bytes[i / 4 * 4 + 3 - i % 4]
    {
      for k := 0 to 4
        invariant forall i :: 0 <= i < word * 4 + k ==> out[i] == bytes[i / 4 * 4 + 3 - i % 4]
      {
        assert (word * 4 + k) / 4 == word && (word * 4 + k) % 4 == k;
        out[word * 4 + k] := bytes[word * 4 + (3 - k)];
      }
    }
  }

  /** The textual address; the IPv6 notation is left to `v6`. */
  function AddrText(b: seq<Byte>, v6: seq<Byte> -> string): string {
    if |b| == 4 then NatText(b[0]) + "." + NatText(b[1]) + "." + NatText(b[2]) + "." + NatText(b[3]) else v6(b)
  }

  function DecodeAddr(hex: string): Result<seq<Byte>, AddrError> {
    match HexBytes(hex)
    case Err(e) => Err(e)
    case Ok(bytes) =>
      if |bytes| == 4 || |bytes| == 16 then Ok(Swapped(bytes)) else Err(BadLength(|bytes|))
  }

  /** Bytes already decoded in front of what the rest of the text decodes to. */
  function Prepend(bytes: seq<Byte>, rest: Result<seq<Byte>, AddrError>): Result<seq<Byte>, AddrError> {
    match rest case Ok(bs) => Ok(bytes + bs) case Err(e) => Err(e)
  }

  lemma PrependNext(bytes: seq<Byte>, b: Byte, rest: Result<seq<Byte>, AddrError>)
    ensures Prepend([], rest) == rest
    ensures Prepend(bytes, Prepend([b], rest)) == Prepend(bytes + [b], rest)
  {
    if rest.Ok? {
      assert [] + rest.value == rest.value;
      assert bytes + ([b] + rest.value) == bytes + [b] + rest.value;
    }
  }

  /** `decode_hex_addr`, step by step. */
  method DecodeHexAddr(hex: string) returns (r: Result<seq<Byte>, AddrError>)
    ensures r == DecodeAddr(hex)
  {
    var bytes: seq<Byte> := [];
    var i := 0;
    assert hex[0..] == hex;
    PrependNext([], 0, HexBytes(hex));
    while i < |hex|
      invariant 0 <= i <= |hex|
      invariant HexBytes(hex) == Prepend(bytes, HexBytes(hex[i..]))
    {
      if i + 1 == |hex| {
        return Err(SliceOutOfRange);
      }
      var b := ParseHex(hex[i..i + 2], 255);
      assert hex[i..][..2] == hex[i..i + 2] && hex[i..][2..] == hex[i + 2..];
      if b.None? {
        return Err(BadAddress);
      }
      PrependNext(bytes, b.value, HexBytes(hex[i + 2..]));
      bytes := bytes + [b.value];
      i := i + 2;
    }
    assert HexBytes(hex[i..]) == Ok([]) && bytes + [] == bytes;
    if |bytes| == 4 {
      r := Ok([bytes[3], bytes[2], bytes[1], bytes[0]]);
      assert Swapped(bytes) == [bytes[3], bytes[2], bytes[1], bytes[0]];
    } else if |bytes| == 16 {
      var out := SwapWords(bytes);
      r := Ok(out[..]);
    } else {
      r := Err(BadLength(|bytes|));
    }
  }

  /** `decode_hex_addr_port`: the printed "address:port" and the port. */
  function DecodeAddrPort(field: string, v6: seq<Byte> -> string): Result<(string, U16), AddrError> {
    match FirstIndex(c => c == ':', field)
    case None => Err(MissingColon)
    case Some(colon) =>
      match ParseHex(field[colon + 1..], 0xFFFF)
      case None => Err(BadPort)
      case Some(port) =>
        match DecodeAddr(field[..colon])
        case Err(e) => Err(e)
        case Ok(addr) => Ok((AddrText(addr, v6) + ":" + NatText(port), port))
  }

  // ---- The kernel's side ---------------------------------------------------------------------

  /** A 32-bit word of an address as the kernel holds it on a little-endian machine. */
  function Word(b0: Byte, b1: Byte, b2: Byte, b3: Byte): nat {
    b0 + 0x100 * b1 + 0x1_0000 * b2 + 0x100_0000 * b3
  }

  /** `%08X` of each word. */
  function KernelAddr(b: seq<Byte>): string
    requires |b| % 4 == 0
  {
    if b == [] then [] else HexText(Word(b[0], b[1], b[2], b[3]), 8) + KernelAddr(b[4..])
  }

  function KernelAddrPort(b: seq<Byte>, port: U16): string
    requires |b| % 4 == 0
  {
    KernelAddr(b) + ":" + HexText(port, 4)
  }

  lemma HexTextTwoMore(n: nat, width: nat)
    ensures HexText(n, width + 2) == HexText(n / 256, width) + HexText(n % 256, 2)
  {
    assert n / 16 / 16 == n / 256;
    assert n / 16 % 16 == n % 256 / 16;
    assert n % 256 % 16 == n % 16;
    assert HexText(n % 256, 2) == HexText(n % 256 / 16, 1) + [HexChar(n % 256 % 16)];
    assert HexText(n % 256 / 16, 1) == HexText(n % 256 / 16 / 16, 0) + [HexChar(n % 256 / 16 % 16)];
    assert HexText(n / 16, width + 1) == HexText(n / 16 / 16, width) + [HexChar(n / 16 % 16)];
  }

  /** The word's hex text is its bytes' hex, most significant first. */
  lemma WordText(b0: Byte, b1: Byte, b2: Byte, b3: Byte)
    ensures HexText(Word(b0, b1, b2, b3), 8) == HexText(b3, 2) + HexText(b2, 2) + HexText(b1, 2) + HexText(b0, 2)
  {
    hide HexText;
    var w := Word(b0, b1, b2, b3);
    HexTextTwoMore(w, 6);
    HexTextTwoMore(w / 256, 4);
    HexTextTwoMore(w / 256 / 256, 2);
    assert w % 256 == b0 && w / 256 == b1 + 0x100 * b2 + 0x1_0000 * b3;
    assert w / 256 % 256 == b1 && w / 256 / 256 == b2 + 0x100 * b3;
    assert w / 256 / 256 % 256 == b2 && w / 256 / 256 / 256 == b3;
    assert HexText(w / 256, 6) == HexText(w / 256 / 256, 4) + HexText(b1, 2);
    assert HexText(w / 256 / 256, 4) == HexText(b3, 2) + HexText(b2, 2);
  }

  lemma HexByteFirst(b: Byte, rest: string)
    ensures HexBytes(HexText(b, 2) + rest) ==
            match HexBytes(rest) case Ok(bs) => Ok([b] + bs) case Err(e) => Err(e)
  {
    hide HexText;
    assert Pow16(2) == 256 by { assert Pow16(1) == 16; }
    ParseHexPrinted(b, 2, 255);
    var s := HexText(b, 2) + rest;
    assert s[..2] == HexText(b, 2) && s[2..] == rest;
  }

  /** One word of the text decodes to its four bytes, last first. */
  lemma WordBytes(b: seq<Byte>, rest: string, more: seq<Byte>)
    requires |b| == 4 && HexBytes(rest) == Ok(more)
    ensures HexBytes(HexText(Word(b[0], b[1], b[2], b[3]), 8) + rest) == Ok([b[3], b[2], b[1], b[0]] + more)
  {
    hide HexText, HexBytes, Word;
    WordText(b[0], b[1], b[2], b[3]);
    var r0 := HexText(b[0], 2) + rest;
    var r1 := HexText(b[1], 2) + r0;
    var r2 := HexText(b[2], 2) + r1;
    HexByteFirst(b[0], rest);
    HexByteFirst(b[1], r0);
    HexByteFirst(b[2], r1);
    HexByteFirst(b[3], r2);
    assert HexText(Word(b[0], b[1], b[2], b[3]), 8) + rest == HexText(b[3], 2) + r2;
    assert [b[3]] + ([b[2]] + ([b[1]] + ([b[0]] + more))) == [b[3], b[2], b[1], b[0]] + more;
  }

  /** Decoding the kernel's text of an address gives the bytes back, word by word
      in memory order. */
  lemma {:induction false} KernelBytes(b: seq<Byte>)
    requires |b| % 4 == 0
    ensures HexBytes(KernelAddr(b)) == Ok(Swapped(b))
    decreases |b|
  {
    hide HexText, HexBytes, Word, Swapped;
    if b == [] {
      NoBytes();
    } else {
      KernelBytes(b[4..]);
      WordBytes(b[..4], KernelAddr(b[4..]), Swapped(b[4..]));
      SwappedFirst(b);
    }
  }

  lemma NoBytes()
    ensures KernelAddr([]) == [] && Swapped([]) == [] && HexBytes([]) == Ok([])
  {
  }

  lemma SwappedFirst(b: seq<Byte>)
    requires |b| % 4 == 0 && b != []
    ensures Swapped(b) == [b[3], b[2], b[1], b[0]] + Swapped(b[4..])
  {
    var s, r := Swapped(b), Swapped(b[4..]);
    forall i | 4 <= i < |b| ensures s[i] == r[i - 4] {
      assert (i - 4) / 4 == i / 4 - 1 && (i - 4) % 4 == i % 4;
    }
  }

  lemma SwapTwice(b: seq<Byte>)
    requires |b| % 4 == 0
    ensures Swapped(Swapped(b)) == b
  {
    forall i | 0 <= i < |b| ensures Swapped(Swapped(b))[i] == b[i] {
      var j := i / 4 * 4 + 3 - i % 4;
      assert j / 4 == i / 4 && j % 4 == 3 - i % 4;
    }
  }

  lemma KernelAddrHasNoColon(b: seq<Byte>)
    requires |b| % 4 == 0
    ensures forall i :: 0 <= i < |KernelAddr(b)| ==> KernelAddr(b)[i] != ':'
    decreases |b|
  {
    hide HexText;
    if b != [] {
      KernelAddrHasNoColon(b[4..]);
    }
  }

  /** Every 4- or 16-byte address and every port survives the kernel's encoding. */
  lemma DecodeInvertsKernel(b: seq<Byte>, port: U16, v6: seq<Byte> -> string)
    requires |b| == 4 || |b| == 16
    ensures DecodeAddr(KernelAddr(b)) == Ok(b)
    ensures DecodeAddrPort(KernelAddrPort(b, port), v6) == Ok((AddrText(b, v6) + ":" + NatText(port), port))
  {
    hide HexText, HexBytes, KernelAddr, NatText, Swapped;
    KernelBytes(b);
    SwapTwice(b);
    SwapLength(b);
    KernelAddrHasNoColon(b);
    var field, n := KernelAddrPort(b, port), |KernelAddr(b)|;
    assert field[n] == ':' && field[..n] == KernelAddr(b) && field[n + 1..] == HexText(port, 4);
    assert forall i :: 0 <= i < n ==> field[i] != ':';
    assert Pow16(4) == 65536 by { assert Pow16(1) == 16 && Pow16(2) == 256 && Pow16(3) == 4096; }
    ParseHexPrinted(port, 4, 0xFFFF);
  }

  lemma SwapLength(b: seq<Byte>)
    requires |b| % 4 == 0
    ensures |Swapped(b)| == |b|
  {
  }

  // ---- Who has a port -------------------------------------------------------------------------

  predicate EndsWith(s: string, suffix: string) {
    |suffix| <= |s| && s[|s| - |suffix|..] == suffix
  }

  lemma DigitsAfter(s: string, i: nat)
    requires i < |s| && AllDigits(s[i + 1..])
    ensures forall m :: i < m < |s| ==> IsDigit(s[m])
  {
    forall m | i < m < |s| ensures IsDigit(s[m]) {
      assert s[m] == s[i + 1..][m - i - 1];
    }
  }

  /** A colon followed only by digits to the end can be in one place only. */
  lemma SeparatorUnique(s: string, i: nat, j: nat)
    requires i < |s| && j < |s| && s[i] == ':' && s[j] == ':'
    requires AllDigits(s[i + 1..]) && AllDigits(s[j + 1..])
    ensures i == j
  {
    DigitsAfter(s, i);
    DigitsAfter(s, j);
  }

  /** Whatever the address looks like, "address:port" ends with ":p" exactly when the
      port is p: the separator is the last colon followed only by digits. */
  lemma PortSuffix(address: string, port: nat, p: nat)
    ensures EndsWith(address + ":" + NatText(port), ":" + NatText(p)) <==> port == p
  {
    hide NatText, AllDigits;
    var s, suffix := address + ":" + NatText(port), ":" + NatText(p);
    assert s[|address|..] == ":" + NatText(port) && s[|address| + 1..] == NatText(port);
    if EndsWith(s, suffix) {
      var from := |s| - |suffix|;
      assert s[from] == s[from..][0] == ':' && s[from + 1..] == s[from..][1..] == NatText(p);
      SeparatorUnique(s, from, |address|);
      NatTextInjective(port, p);
    }
  }

  /** `who_has_port` over the connections read for each live pid (absent: the read
      failed), in the map order `order` happens to be. */
  function MatchesIn(order: seq<Pid>, conns: map<Pid, seq<Connection>>, port: U16): seq<(Pid, Connection)> {
    if order == [] then []
    else
      var pid := Last(order);
      MatchesIn(Front(order), conns, port)
      + if pid in conns then MatchesOf(pid, conns[pid], port) else []
  }

  function MatchesOf(pid: Pid, conns: seq<Connection>, port: U16): seq<(Pid, Connection)> {
    if conns == [] then []
    else
      MatchesOf(pid, Front(conns), port)
      + if EndsWith(Last(conns).localAddr, ":" + NatText(port)) then [(pid, Last(conns))] else []
  }

  method WhoHasPort(live: set<Pid>, conns: map<Pid, seq<Connection>>, port: U16)
    returns (matches: seq<(Pid, Connection)>)
    ensures exists order :: Enumerates(order, live) && matches == MatchesIn(order, conns, port)
  {
    var suffix := ":" + NatText(port);
    var pids := Iterate(live);
    matches := [];
    for i := 0 to |pids|
      invariant matches == MatchesIn(pids[..i], conns, port)
    {
      assert Front(pids[..i + 1]) == pids[..i];
      if pids[i] in conns {
        var list := conns[pids[i]];
        ghost var before := matches;
        for j := 0 to |list|
          invariant matches == before + MatchesOf(pids[i], list[..j], port)
        {
          assert Front(list[..j + 1]) == list[..j];
          if EndsWith(list[j].localAddr, suffix) {
            matches := matches + [(pids[i], list[j])];
          }
        }
        assert list[..|list|] == list;
      }
    }
    assert pids[..|pids|] == pids;
  }

  lemma {:induction false} MatchOf(pid: Pid, conns: seq<Connection>, port: U16, m: (Pid, Connection))
    ensures m in MatchesOf(pid, conns, port) <==>
            m.0 == pid && m.1 in conns && EndsWith(m.1.localAddr, ":" + NatText(port))
  {
    hide NatText;
    if conns != [] {
      MatchOf(pid, Front(conns), port, m);
      assert conns == Front(conns) + [Last(conns)];
    }
  }

  lemma {:induction false} MatchIn(order: seq<Pid>, conns: map<Pid, seq<Connection>>, port: U16, m: (Pid, Connection))
    ensures m in MatchesIn(order, conns, port) <==>
            m.0 in order && m.0 in conns && m.1 in conns[m.0] && EndsWith(m.1.localAddr, ":" + NatText(port))
  {
    hide NatText, EndsWith;
    if order != [] {
      var pid := Last(order);
      MatchIn(Front(order), conns, port, m);
      if pid in conns { MatchOf(pid, conns[pid], port, m); }
      assert order == Front(order) + [pid];
    }
  }

  // ---- Socket tables ------------------------------------------------------------------------

  /** `str::lines`: split at newlines, each with the carriage return before it if any;
      a final newline ends the last line. */
  function Lines(s: string): seq<string>
    decreases |s|
  {
    if s == [] then []
    else
      match FirstIndex(c => c == '\n', s)
      case None => [s]
      case Some(i) => [WithoutReturn(s[..i])] + Lines(s[i + 1..])
  }

  function WithoutReturn(s: string): string {
    if s != [] && Last(s) == '\r' then Front(s) else s
  }

  /** One row, already split at blanks; None for a row too short to be a socket. */
  function ParseRow(fields: seq<string>, protocol: Protocol,
                    v6: seq<Byte> -> string): Result<Option<Connection>, AddrError> {
    if |fields| < 10 then Ok(None)
    else
      match DecodeAddrPort(fields[1], v6)
      case Err(e) => Err(e)
      case Ok(local) =>
        match DecodeAddrPort(fields[2], v6)
        case Err(e) => Err(e)
        case Ok(remote) =>
          match ParseHex(fields[3], 255)
          case None => Err(BadState)
          case Some(state) =>
            match ParseUnsigned(fields[9])
            case None => Err(BadInode)
            case Some(inode) => Ok(Some(Connection(protocol, local.0, remote.0, Some(state), inode)))
  }

  /** `parse::<u64>`: like a signed parse, but no sign other than '+'. */
  function ParseUnsigned(s: string): Option<U64> {
    if s != [] && s[0] == '-' then None
    else match ParseInt(s, 0, 0xFFFF_FFFF_FFFF_FFFF)
      case None => None
      case Some(v) => Some(v)
  }

  function ParseRows(rows: seq<string>, protocol: Protocol,
                     v6: seq<Byte> -> string): Result<seq<Connection>, AddrError> {
    if rows == [] then Ok([])
    else
      match ParseRows(Front(rows), protocol, v6)
      case Err(e) => Err(e)
      case Ok(conns) =>
        match ParseRow(Split(Last(rows)), protocol, v6)
        case Err(e) => Err(e)
        case Ok(None) => Ok(conns)
        case Ok(Some(c)) => Ok(conns + [c])
  }

  /** `parse_tcp_udp`, row by row, the header line skipped. */
  method ParseTcpUdp(content: string, protocol: Protocol, v6: seq<Byte> -> string)
    returns (r: Result<seq<Connection>, AddrError>)
    ensures r == ParseRows(if Lines(content) == [] then [] else Lines(content)[1..], protocol, v6)
  {
    var lines := Lines(content);
    var rows := if lines == [] then [] else lines[1..];
    var conns := [];
    for i := 0 to |rows|
      invariant ParseRows(rows[..i], protocol, v6) == Ok(conns)
    {
      assert Front(rows[..i + 1]) == rows[..i];
      var row := ParseRow(Split(rows[i]), protocol, v6);
      if row.Err? {
        StopsAtError(rows, i + 1, protocol, v6);
        return Err(row.error);
      }
      if row.value.Some? {
        conns := conns + [row.value.value];
      }
    }
    assert rows[..|rows|] == rows;
    r := Ok(conns);
  }

  lemma {:induction false} StopsAtError(rows: seq<string>, n: nat, protocol: Protocol, v6: seq<Byte> -> string)
    requires n <= |rows| && ParseRows(rows[..n], protocol, v6).Err?
    ensures ParseRows(rows, protocol, v6) == ParseRows(rows[..n], protocol, v6)
    decreases |rows| - n
  {
    if n < |rows| {
      assert Front(rows[..n + 1]) == rows[..n];
      StopsAtError(rows, n + 1, protocol, v6);
    } else {
      assert rows[..n] == rows;
    }
  }

  /** A socket as the kernel knows it. */
  datatype Socket = Socket(
    local: seq<Byte>, localPort: U16, remote: seq<Byte>, remotePort: U16, state: Byte, inode: U64)
  {
    predicate Valid() { (|local| == 4 || |local| == 16) && |remote| == |local| }
  }

  /** The columns the program skips: the slot, five counters, and whatever follows. */
  datatype Columns = Columns(slot: string, counters: seq<string>, rest: seq<string>)
  {
    predicate Valid() { |counters| == 5 && forall w :: w in [slot] + counters + rest ==> Token(w) }
  }

  function RowFields(s: Socket, c: Columns): seq<string>
    requires s.Valid()
  {
    [c.slot, KernelAddrPort(s.local, s.localPort), KernelAddrPort(s.remote, s.remotePort), HexText(s.state, 2)]
    + c.counters + [NatText(s.inode)] + c.rest
  }

  function ConnectionOf(s: Socket, protocol: Protocol, v6: seq<Byte> -> string): Connection
    requires s.Valid()
  {
    Connection(protocol, AddrText(s.local, v6) + ":" + NatText(s.localPort),
               AddrText(s.remote, v6) + ":" + NatText(s.remotePort), Some(s.state), s.inode)
  }

  lemma RowInverts(s: Socket, c: Columns, protocol: Protocol, v6: seq<Byte> -> string)
    requires s.Valid() && c.Valid()
    ensures ParseRow(RowFields(s, c), protocol, v6) == Ok(Some(ConnectionOf(s, protocol, v6)))
  {
    hide DecodeAddrPort, KernelAddrPort, HexText, NatText, ParseInt, ParseHex, AddrText;
    DecodeInvertsKernel(s.local, s.localPort, v6);
    DecodeInvertsKernel(s.remote, s.remotePort, v6);
    assert Pow16(2) == 256 by { assert Pow16(1) == 16; }
    ParseHexPrinted(s.state, 2, 255);
    ParsePrinted(s.inode, 0, 0xFFFF_FFFF_FFFF_FFFF);
    assert IsDigit(NatText(s.inode)[0]);
    var f := RowFields(s, c);
    assert f[9] == NatText(s.inode) == IntText(s.inode);
  }

  lemma {:induction false} HexTextToken(n: nat, width: nat)
    requires width > 0
    ensures Token(HexText(n, width))
  {
    if width > 1 {
      HexTextToken(n / 16, width - 1);
    } else {
      assert HexText(n / 16, 0) == [];
    }
  }

  lemma {:induction false} KernelAddrToken(b: seq<Byte>)
    requires |b| % 4 == 0 && b != []
    ensures Token(KernelAddr(b))
    decreases |b|
  {
    hide HexText;
    HexTextToken(Word(b[0], b[1], b[2], b[3]), 8);
    if |b| > 4 {
      KernelAddrToken(b[4..]);
    } else {
      assert KernelAddr(b[4..]) == [];
    }
  }

  lemma RowFieldsAreTokens(s: Socket, c: Columns)
    requires s.Valid() && c.Valid()
    ensures forall w :: w in RowFields(s, c) ==> Token(w)
  {
    hide HexText, NatText, KernelAddr, Token;
    AddrPortToken(s.local, s.localPort);
    AddrPortToken(s.remote, s.remotePort);
    HexTextToken(s.state, 2);
    IntTextToken(s.inode);
    forall w | w in RowFields(s, c) ensures Token(w) {
      assert w in [c.slot] + c.counters + c.rest
             || w in [KernelAddrPort(s.local, s.localPort), KernelAddrPort(s.remote, s.remotePort),
                      HexText(s.state, 2), NatText(s.inode)];
    }
  }

  lemma AddrPortToken(b: seq<Byte>, port: U16)
    requires |b| % 4 == 0 && b != []
    ensures Token(KernelAddrPort(b, port))
  {
    hide HexText, KernelAddr;
    KernelAddrToken(b);
    HexTextToken(port, 4);
  }

  /** A table: a header line, then one line per socket. */
  function Table(header: string, sockets: seq<Socket>, columns: seq<Columns>): string
    requires |columns| == |sockets| && forall s :: s in sockets ==> s.Valid()
  {
    header + "\n" + Body(sockets, columns)
  }

  function Body(sockets: seq<Socket>, columns: seq<Columns>): string
    requires |columns| == |sockets| && forall s :: s in sockets ==> s.Valid()
    decreases |sockets|
  {
    if sockets == [] then []
    else Join(RowFields(sockets[0], columns[0])) + "\n" + Body(sockets[1..], columns[1..])
  }

  lemma LineFirst(line: string, rest: string)
    requires forall i :: 0 <= i < |line| ==> line[i] != '\n'
    ensures Lines(line + "\n" + rest) == [WithoutReturn(line)] + Lines(rest)
  {
    var s := line + "\n" + rest;
    assert s[|line|] == '\n' && s[..|line|] == line && s[|line| + 1..] == rest;
    assert FirstIndex(c => c == '\n', s) == Some(|line|);
  }

  lemma {:induction false} JoinedLine(words: seq<string>)
    requires words != [] && forall w :: w in words ==> Token(w)
    ensures forall i :: 0 <= i < |Join(words)| ==> Join(words)[i] != '\n'
    ensures WithoutReturn(Join(words)) == Join(words)
    decreases |words|
  {
    assert Token(words[0]);
    if |words| > 1 {
      JoinedLine(words[1..]);
    }
    JoinedText(words);
  }

  lemma RowIsLine(s: Socket, c: Columns, rest: string)
    requires s.Valid() && c.Valid()
    ensures Lines(Join(RowFields(s, c)) + "\n" + rest) == [Join(RowFields(s, c))] + Lines(rest)
  {
    hide RowFields, Token, Join, Lines;
    RowFieldsAreTokens(s, c);
    RowHasFields(s, c);
    JoinedLine(RowFields(s, c));
    LineFirst(Join(RowFields(s, c)), rest);
  }

  lemma {:induction false} BodyLines(sockets: seq<Socket>, columns: seq<Columns>)
    requires |columns| == |sockets|
    requires (forall s :: s in sockets ==> s.Valid()) && forall c :: c in columns ==> c.Valid()
    ensures |Lines(Body(sockets, columns))| == |sockets|
    ensures forall i :: 0 <= i < |sockets| ==>
              Lines(Body(sockets, columns))[i] == Join(RowFields(sockets[i], columns[i]))
    decreases |sockets|
  {
    hide RowFields, Join, Lines;
    if sockets == [] {
      NoLines();
    } else {
      assert sockets[0].Valid() && columns[0].Valid();
      BodyLines(sockets[1..], columns[1..]);
      RowIsLine(sockets[0], columns[0], Body(sockets[1..], columns[1..]));
    }
  }

  lemma NoLines()
    ensures Lines([]) == []
  {
  }

  lemma RowHasFields(s: Socket, c: Columns)
    requires s.Valid()
    ensures RowFields(s, c) != []
  {
  }

  lemma {:induction false} RowsInvert(rows: seq<string>, sockets: seq<Socket>, columns: seq<Columns>,
                                      protocol: Protocol, v6: seq<Byte> -> string)
    requires |rows| == |columns| == |sockets|
    requires (forall s :: s in sockets ==> s.Valid()) && forall c :: c in columns ==> c.Valid()
    requires forall i :: 0 <= i < |rows| ==> rows[i] == Join(RowFields(sockets[i], columns[i]))
    ensures var r := ParseRows(rows, protocol, v6);
            && r.Ok? && |r.value| == |sockets|
            && forall i :: 0 <= i < |sockets| ==> r.value[i] == ConnectionOf(sockets[i], protocol, v6)
  {
    hide RowFields, Token, Join, ParseRow, ConnectionOf, Split;
    if rows != [] {
      var n := |rows| - 1;
      RowsInvert(Front(rows), Front(sockets), Front(columns), protocol, v6);
      assert Last(sockets) in sockets && Last(columns) in columns;
      RowFieldsAreTokens(sockets[n], columns[n]);
      SplitJoined(RowFields(sockets[n], columns[n]));
      RowInverts(sockets[n], columns[n], protocol, v6);
    }
  }

  /** Parsing the table the kernel prints gives back exactly its sockets, in order. */
  lemma ParseInvertsTable(header: string, sockets: seq<Socket>, columns: seq<Columns>, protocol: Protocol,
                          v6: seq<Byte> -> string)
    requires |columns| == |sockets|
    requires (forall s :: s in sockets ==> s.Valid()) && forall c :: c in columns ==> c.Valid()
    requires forall i :: 0 <= i < |header| ==> header[i] != '\n'
    ensures var lines := Lines(Table(header, sockets, columns));
            && lines != []
            && var r := ParseRows(lines[1..], protocol, v6);
            && r.Ok? && |r.value| == |sockets|
            && forall i :: 0 <= i < |sockets| ==> r.value[i] == ConnectionOf(sockets[i], protocol, v6)
  {
    hide RowFields, Join, ParseRows, ConnectionOf, Body, Lines;
    LineFirst(header, Body(sockets, columns));
    BodyLines(sockets, columns);
    var lines := Lines(Table(header, sockets, columns));
    assert lines[1..] == Lines(Body(sockets, columns));
    RowsInvert(lines[1..], sockets, columns, protocol, v6);
  }

  /** A live pid's connection is reported for port p exactly when it is a TCP or UDP
      socket bound to p, or a Unix socket whose path happens to end in ":p". */
  lemma PortOwners(order: seq<Pid>, conns: map<Pid, seq<Connection>>, port: U16, v6: seq<Byte> -> string,
                   pid: Pid, c: Connection, s: Socket)
    requires pid in order && pid in conns && c in conns[pid]
    requires c.protocol.Unix? || (s.Valid() && c == ConnectionOf(s, c.protocol, v6))
    ensures (pid, c) in MatchesIn(order, conns, port) <==>
            if c.protocol.Unix? then EndsWith(c.localAddr, ":" + NatText(port)) else s.localPort == port
  {
    hide NatText, EndsWith;
    MatchIn(order, conns, port, (pid, c));
    if !c.protocol.Unix? {
      PortSuffix(AddrText(s.local, v6), s.localPort, port);
    }
  }
}
