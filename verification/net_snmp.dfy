/** The parser of /proc/net/snmp. Lines come in pairs, names then values; what was learned from a names line is cached
    and reused as long as the line stays the same. */
module NetSnmp {
  import opened Common

  type UInt32 = x: int | 0 <= x < U32

  const U32: int := 0x1_0000_0000
  const NL: Byte := 10
  const TAB: Byte := 9
  const SPACE: Byte := 32
  const COLON: Byte := 58
  const MINUS: Byte := 45
  const ZERO: Byte := 48

  /** The known variables of each protocol, where their values go, and which values may be negative. */
  datatype Table = Table(index: map<Bytes, map<Bytes, nat>>, size: nat, mayBeNegative: set<nat>)

  predicate TableOk(table: Table) {
    forall p, v | p in table.index && v in table.index[p] :: table.index[p][v] < table.size
  }

  /** What is learned from a names line: the line itself, the length of its prefix up to the colon, and for each name
      the index of its value or -1. */
  datatype LineInfo = LineInfo(line: Bytes, prefixLen: nat, indexMap: seq<int>)

  predicate IsWhitespace(c: Byte) {
    c == SPACE || c == TAB
  }

  predicate IsDigit(c: Byte) {
    ZERO <= c < ZERO + 10
  }

  // ---------- Names lines ----------

  predicate IsAsciiSpace(c: Byte) {
    c == SPACE || 9 <= c <= 13
  }

  /** How many bytes the white space character at position `i` takes in UTF-8, 0 if there is none. These are the
      characters with the Unicode property White_Space, which separate the fields of a names line. Their first bytes do
      not occur inside other characters, so no decoding is needed to find them. */
  function SpaceLen(s: Bytes, i: nat): (n: nat)
    ensures n <= |s| - i || n == 0
  {
    if i >= |s| then 0
    else if IsAsciiSpace(s[i]) then 1
    else if i + 2 <= |s| && IsSpace2(s[i], s[i + 1]) then 2
    else if i + 3 <= |s| && IsSpace3(s[i], s[i + 1], s[i + 2]) then 3
    else 0
  }

  predicate IsSpace2(a: Byte, b: Byte) {
    a == 0xC2 && (b == 0x85 || b == 0xA0)
  }

  predicate IsSpace3(a: Byte, b: Byte, c: Byte) {
    || (a == 0xE1 && b == 0x9A && c == 0x80)
    || (a == 0xE2 && b == 0x80 && (0x80 <= c <= 0x8A || c == 0xA8 || c == 0xA9 || c == 0xAF))
    || (a == 0xE2 && b == 0x81 && c == 0x9F)
    || (a == 0xE3 && b == 0x80 && c == 0x80)
  }

  /** The same at the end of a text. */
  function LastSpaceLen(s: Bytes): (n: nat)
    ensures n <= |s|
  {
    if |s| >= 1 && SpaceLen(s, |s| - 1) == 1 then 1
    else if |s| >= 2 && SpaceLen(s, |s| - 2) == 2 then 2
    else if |s| >= 3 && SpaceLen(s, |s| - 3) == 3 then 3
    else 0
  }

  function IndexOf(s: Bytes, c: Byte): (i: int)
    ensures -1 <= i < |s|
    ensures i >= 0 ==> s[i] == c && c !in s[..i]
    ensures i < 0 ==> c !in s
  {
    if s == [] then -1
    else if s[0] == c then 0
    else
      var i := IndexOf(s[1..], c);
      assert i >= 0 ==> s[..i + 1] == [s[0]] + s[1..][..i];
      if i < 0 then -1 else i + 1
  }

  /** The fields of a line whose first bytes, `word`, were already read. */
  function Fields(word: Bytes, s: Bytes): seq<Bytes>
    decreases |s|
  {
    if s == [] then (if word == [] then [] else [word])
    else if SpaceLen(s, 0) == 0 then Fields(word + [s[0]], s[1..])
    else (if word == [] then [] else [word]) + Fields([], s[SpaceLen(s, 0)..])
  }

  function TrimLeft(s: Bytes): Bytes {
    if SpaceLen(s, 0) > 0 then TrimLeft(s[SpaceLen(s, 0)..]) else s
  }

  function TrimRight(s: Bytes): Bytes {
    if LastSpaceLen(s) > 0 then TrimRight(s[..|s| - LastSpaceLen(s)]) else s
  }

  function ValueIndex(table: Table, proto: Bytes, variable: Bytes): int {
    if proto in table.index && variable in table.index[proto] then table.index[proto][variable] else -1
  }

  function Variables(line: Bytes): seq<Bytes> {
    var prefixLen := IndexOf(line, COLON) + 1;
    if 1 < prefixLen < |line| then Fields([], line[prefixLen + 1..]) else []
  }

  function BuildLineInfo(line: Bytes, table: Table): Option<LineInfo> {
    var variables := Variables(line);
    if variables == [] then None
    else
      var prefixLen := IndexOf(line, COLON) + 1;
      var proto := TrimRight(TrimLeft(line[..prefixLen - 1]));
      Some(LineInfo(line, prefixLen,
                    seq(|variables|, i requires 0 <= i < |variables| => ValueIndex(table, proto, variables[i]))))
  }

  // ---------- Values lines ----------

  function SkipWhitespace(s: Bytes): Bytes {
    if s != [] && IsWhitespace(s[0]) then SkipWhitespace(s[1..]) else s
  }

  /** The end of a number: its value, whether there were any digits, whether the line ended, and what follows. */
  datatype Number = Number(value: UInt32, hasValue: bool, eol: bool, rest: Bytes) | BadDigit

  function ScanNumber(s: Bytes, value: UInt32, hasValue: bool): Number {
    if s == [] then Number(value, hasValue, false, [])
    else if IsDigit(s[0]) then ScanNumber(s[1..], (value * 10 + (s[0] - ZERO)) % U32, true)
    else if s[0] == NL then Number(value, hasValue, true, s[1..])
    else if IsWhitespace(s[0]) then Number(value, hasValue, false, s[1..])
    else BadDigit
  }

  lemma ScanNumberAdvances(s: Bytes, value: UInt32, hasValue: bool)
    ensures var n := ScanNumber(s, value, hasValue); n.Number? ==> |n.rest| <= |s| && (s != [] ==> |n.rest| < |s|)
  {
  }

  lemma SkipWhitespaceAdvances(s: Bytes)
    ensures |SkipWhitespace(s)| <= |s|
  {
  }

  function Negate(value: UInt32): UInt32 {
    (U32 - value) % U32
  }

  /** The values, as far as they were updated, and whether the line is still good; then how many values were read,
      whether the line ended, and what follows. */
  datatype Progress = Good(values: seq<UInt32>, count: nat, eol: bool, rest: Bytes) | Bad(values: seq<UInt32>)

  /** One value: stored if its name is known; negative only where it may be. */
  function StoreValue(values: seq<UInt32>, index: int, value: UInt32, negative: bool,
                      table: Table): Option<seq<UInt32>> {
    if !(0 <= index < |values|) then Some(values)
    else if negative && index !in table.mayBeNegative then None
    else Some(values[index := if negative then Negate(value) else value])
  }

  function ScanValues(s: Bytes, count: nat, indexMap: seq<int>, values: seq<UInt32>, table: Table): Progress
    decreases |s|
  {
    if count >= |indexMap| || s == [] then Good(values, count, false, s)
    else
      SkipWhitespaceAdvances(s);
      var t := SkipWhitespace(s);
      var negative := t != [] && t[0] == MINUS;
      var u := if negative then t[1..] else t;
      ScanNumberAdvances(u, 0, false);
      var n := ScanNumber(u, 0, false);
      if n.BadDigit? then Bad(values)
      else if !n.hasValue then
        if n.eol then Good(values, count, true, n.rest)
        else ScanValues(n.rest, count, indexMap, values, table)
      else
        var stored := StoreValue(values, indexMap[count], n.value, negative, table);
        if stored.None? then Bad(values)
        else if n.eol then Good(stored.value, count + 1, true, n.rest)
        else ScanValues(n.rest, count + 1, indexMap, stored.value, table)
  }

  /** Only white space may follow the values. */
  function ScanEol(s: Bytes): Option<Bytes> {
    if s == [] then Some([])
    else if s[0] == NL then Some(s[1..])
    else if IsWhitespace(s[0]) then ScanEol(s[1..])
    else None
  }

  /** The outcome of (the rest of) a file: the values as far as they were updated, and success or failure. */
  datatype Outcome = Outcome(values: seq<UInt32>, ok: bool)

  /** A values line: the expected prefix, enough values, and nothing but white space after them. */
  function ParseValuesLine(s: Bytes, info: LineInfo, values: seq<UInt32>, table: Table): Progress
    requires info.prefixLen <= |info.line|
  {
    var prefix := info.line[..info.prefixLen];
    if !(prefix <= s) then Bad(values)
    else
      var p := ScanValues(s[|prefix|..], 0, info.indexMap, values, table);
      if p.Bad? || p.count < |info.indexMap| then Bad(p.values)
      else if p.eol then p
      else
        var rest := ScanEol(p.rest);
        if rest.None? then Bad(p.values) else p.(rest := rest.value)
  }

  function LineLength(s: Bytes): (n: nat)
    ensures n <= |s| && NL !in s[..n] && (n < |s| ==> s[n] == NL)
  {
    if IndexOf(s, NL) < 0 then |s| else IndexOf(s, NL)
  }

  function AfterLine(s: Bytes): Bytes {
    if LineLength(s) < |s| then s[LineLength(s) + 1..] else []
  }

  lemma ScanValuesAdvances(s: Bytes, count: nat, indexMap: seq<int>, values: seq<UInt32>, table: Table)
    ensures var p := ScanValues(s, count, indexMap, values, table); p.Good? ==> |p.rest| <= |s|
    decreases |s|
  {
    if count < |indexMap| && s != [] {
      SkipWhitespaceAdvances(s);
      var t := SkipWhitespace(s);
      var negative := t != [] && t[0] == MINUS;
      var u := if negative then t[1..] else t;
      ScanNumberAdvances(u, 0, false);
      var n := ScanNumber(u, 0, false);
      if n.Number? && !n.eol {
        if !n.hasValue {
          ScanValuesAdvances(n.rest, count, indexMap, values, table);
        } else {
          var stored := StoreValue(values, indexMap[count], n.value, negative, table);
          if stored.Some? {
            ScanValuesAdvances(n.rest, count + 1, indexMap, stored.value, table);
          }
        }
      }
    }
  }

  lemma ScanEolAdvances(s: Bytes)
    ensures ScanEol(s).Some? ==> |ScanEol(s).value| <= |s|
  {
  }

  lemma BuiltPrefix(line: Bytes, table: Table)
    ensures var info := BuildLineInfo(line, table);
            info.Some? ==> info.value.line == line && 1 < info.value.prefixLen < |line| && info.value.indexMap != []
  {
  }

  lemma ParseValuesLineAdvances(s: Bytes, info: LineInfo, values: seq<UInt32>, table: Table)
    requires info.prefixLen <= |info.line|
    ensures var p := ParseValuesLine(s, info, values, table); p.Good? ==> |p.rest| <= |s|
  {
    if info.line[..info.prefixLen] <= s {
      ScanValuesAdvances(s[info.prefixLen..], 0, info.indexMap, values, table);
      var p := ScanValues(s[info.prefixLen..], 0, info.indexMap, values, table);
      if p.Good? {
        ScanEolAdvances(p.rest);
      }
    }
  }

  /** The reference parser: every names line is parsed afresh. */
  function ParseFile(s: Bytes, values: seq<UInt32>, table: Table): Outcome
    decreases |s|, 0
  {
    if s == [] then Outcome(values, true)
    else
      var info := BuildLineInfo(s[..LineLength(s)], table);
      if info.None? then Outcome(values, false)
      else
        BuiltPrefix(s[..LineLength(s)], table);
        ParseValues(AfterLine(s), info.value, values, table)
  }

  function ParseValues(s: Bytes, info: LineInfo, values: seq<UInt32>, table: Table): Outcome
    requires info.prefixLen <= |info.line|
    decreases |s|, 1
  {
    if s == [] then Outcome(values, true)
    else
      ParseValuesLineAdvances(s, info, values, table);
      var p := ParseValuesLine(s, info, values, table);
      if p.Bad? then Outcome(p.values, false)
      else ParseFile(p.rest, p.values, table)
  }

  // ---------- The parser ----------

  lemma SuffixStep(buf: Bytes, pos: nat)
    requires pos < |buf|
    ensures buf[pos..][0] == buf[pos] && buf[pos..][1..] == buf[pos + 1..]
  {
  }

  method ParseNumber(buf: Bytes, start: nat) returns (ok: bool, value: UInt32, hasValue: bool, eol: bool, pos: nat)
    requires start <= |buf|
    ensures start <= pos <= |buf|
    ensures var n := ScanNumber(buf[start..], 0, false);
            if ok then n == Number(value, hasValue, eol, buf[pos..]) else n.BadDigit?
  {
    ok, value, hasValue, eol, pos := true, 0, false, false, start;
    var done := false;
    while !done && pos < |buf|
      invariant start <= pos <= |buf| && ok
      invariant !done ==> !eol && ScanNumber(buf[start..], 0, false) == ScanNumber(buf[pos..], value, hasValue)
      invariant done ==> ScanNumber(buf[start..], 0, false) == Number(value, hasValue, eol, buf[pos..])
      decreases |buf| - pos, !done
    {
      var c := buf[pos];
      SuffixStep(buf, pos);
      if IsDigit(c) {
        value := (value * 10 + (c - ZERO)) % U32;
        hasValue := true;
      } else if c == NL {
        eol, done := true, true;
      } else if IsWhitespace(c) {
        done := true;
      } else {
        ok := false;
        return;
      }
      pos := pos + 1;
    }
    assert !done ==> buf[pos..] == [];
  }

  method SkipSpaces(buf: Bytes, start: nat) returns (pos: nat)
    requires start <= |buf|
    ensures start <= pos <= |buf| && buf[pos..] == SkipWhitespace(buf[start..])
  {
    pos := start;
    while pos < |buf| && IsWhitespace(buf[pos])
      invariant start <= pos <= |buf| && SkipWhitespace(buf[start..]) == SkipWhitespace(buf[pos..])
    {
      SuffixStep(buf, pos);
      pos := pos + 1;
    }
    assert pos < |buf| ==> buf[pos..][0] == buf[pos];
  }

  /** White space, perhaps a sign, and a number. */
  method ReadSigned(buf: Bytes, start: nat)
    returns (ok: bool, negative: bool, value: UInt32, hasValue: bool, eol: bool, pos: nat)
    requires start < |buf|
    ensures start <= pos <= |buf| && (ok ==> start < pos)
    ensures var t := SkipWhitespace(buf[start..]);
            && negative == (t != [] && t[0] == MINUS)
            && var n := ScanNumber(if negative then t[1..] else t, 0, false);
               if ok then n == Number(value, hasValue, eol, buf[pos..]) else n.BadDigit?
  {
    pos := SkipSpaces(buf, start);
    negative := pos < |buf| && buf[pos] == MINUS;
    if negative {
      SuffixStep(buf, pos);
      pos := pos + 1;
    }
    ScanNumberAdvances(buf[pos..], 0, false);
    ok, value, hasValue, eol, pos := ParseNumber(buf, pos);
  }

  method FindEol(buf: Bytes, start: nat) returns (ok: bool, pos: nat)
    requires start <= |buf|
    ensures start <= pos <= |buf|
    ensures ScanEol(buf[start..]) == if ok then Some(buf[pos..]) else None
  {
    ok, pos := true, start;
    var eol := false;
    while !eol && pos < |buf|
      invariant start <= pos <= |buf| && ok
      invariant if eol then ScanEol(buf[start..]) == Some(buf[pos..]) else ScanEol(buf[start..]) == ScanEol(buf[pos..])
      decreases |buf| - pos, !eol
    {
      var c := buf[pos];
      SuffixStep(buf, pos);
      eol := c == NL;
      if !eol && !IsWhitespace(c) {
        ok := false;
        return;
      }
      pos := pos + 1;
    }
    assert !eol ==> buf[pos..] == [];
  }

  lemma NoneBefore(s: Bytes, n: nat, c: Byte)
    requires n <= |s| && c !in s[..n]
    ensures forall k | 0 <= k < n :: s[k] != c
  {
    forall k | 0 <= k < n ensures s[k] != c {
      assert s[k] == s[..n][k];
    }
  }

  class Parser {
    const table: Table
    var values: seq<UInt32>
    var lineInfo: seq<LineInfo>
    var infoChanged: bool

    constructor (table: Table)
      requires TableOk(table)
      ensures Valid() && lineInfo == [] && this.table == table
    {
      this.table := table;
      values, lineInfo, infoChanged := seq(table.size, i => 0), [], false;
    }

    /** Every cached entry was built from its own line. */
    predicate CacheOk()
      reads this`lineInfo
    {
      forall i | 0 <= i < |lineInfo| :: BuildLineInfo(lineInfo[i].line, table) == Some(lineInfo[i])
    }

    ghost predicate Valid()
      reads this`values, this`lineInfo
    {
      TableOk(table) && |values| == table.size && CacheOk()
    }

    static method CopyInfos(infos: seq<LineInfo>) returns (copy: seq<LineInfo>)
      ensures copy == infos
    {
      copy := [];
      for i := 0 to |infos|
        invariant copy == infos[..i]
      {
        copy := copy + [LineInfo(infos[i].line, infos[i].prefixLen, infos[i].indexMap)];
      }
    }

    /** Takes over what another parser has learnt: a true cache stays true. */
    method UpdateInfo(from: Parser)
      requires Valid() && from.Valid() && from.table == table
      modifies this`lineInfo
      ensures Valid() && lineInfo == old(from.lineInfo)
    {
      lineInfo := CopyInfos(from.lineInfo);
    }

    /** The values of one line, from `start` on, stored as they are read. */
    method ReadValues(buf: Bytes, start: nat, indexMap: seq<int>) returns (ok: bool, count: nat, eol: bool, pos: nat)
      requires start <= |buf| && |values| == table.size
      requires forall k | 0 <= k < |indexMap| :: indexMap[k] < table.size
      modifies this`values
      ensures start <= pos <= |buf| && |values| == table.size
      ensures ScanValues(buf[start..], 0, indexMap, old(values), table) ==
              if ok then Good(values, count, eol, buf[pos..]) else Bad(values)
    {
      ok, count, eol, pos := true, 0, false, start;
      while !eol && pos < |buf| && count < |indexMap|
        invariant start <= pos <= |buf| && |values| == table.size && ok
        invariant ScanValues(buf[start..], 0, indexMap, old(values), table) ==
                  if eol then Good(values, count, true, buf[pos..])
                  else ScanValues(buf[pos..], count, indexMap, values, table)
        decreases |buf| - pos, !eol
      {
        var numberOk, negative, value, hasValue, numberEol, next := ReadSigned(buf, pos);
        if !numberOk {
          ok := false;
          return;
        }
        if hasValue {
          var stored := StoreValue(values, indexMap[count], value, negative, table);
          if stored.None? {
            ok, pos := false, next;
            return;
          }
          values := stored.value;
          count := count + 1;
        }
        eol, pos := numberEol, next;
      }
    }

    /** A values line: prefix, values, end of line. */
    method ReadValuesLine(buf: Bytes, start: nat, info: LineInfo) returns (ok: bool, pos: nat)
      requires start <= |buf| && |values| == table.size && info.prefixLen <= |info.line|
      requires forall k | 0 <= k < |info.indexMap| :: info.indexMap[k] < table.size
      modifies this`values
      ensures start <= pos <= |buf| && |values| == table.size
      ensures var p := ParseValuesLine(buf[start..], info, old(values), table);
              if ok then p.Good? && p.values == values && p.rest == buf[pos..] else p == Bad(values)
    {
      var prefixLen := info.prefixLen;
      var prefixPos := 0;
      pos := start;
      while pos < |buf| && prefixPos < prefixLen && buf[pos] == info.line[prefixPos]
        invariant 0 <= prefixPos <= prefixLen && pos == start + prefixPos <= |buf|
        invariant buf[start..pos] == info.line[..prefixPos]
      {
        assert buf[start..pos + 1] == buf[start..pos] + [buf[pos]];
        assert info.line[..prefixPos + 1] == info.line[..prefixPos] + [info.line[prefixPos]];
        pos := pos + 1;
        prefixPos := prefixPos + 1;
      }
      PrefixMatch(buf, start, info.line[..prefixLen], prefixPos);
      if prefixPos != prefixLen {
        ok := false;
        return;
      }
      assert buf[start..][prefixLen..] == buf[pos..];
      var count, eol;
      ok, count, eol, pos := ReadValues(buf, pos, info.indexMap);
      if !ok || count < |info.indexMap| {
        ok := false;
        return;
      }
      if !eol {
        ok, pos := FindEol(buf, pos);
      }
    }

    lemma PrefixMatch(buf: Bytes, start: nat, prefix: Bytes, n: nat)
      requires start <= |buf| && n <= |prefix| && start + n <= |buf| && buf[start..start + n] == prefix[..n]
      requires n < |prefix| ==> start + n == |buf| || buf[start + n] != prefix[n]
      ensures prefix <= buf[start..] <==> n == |prefix|
    {
      if n == |prefix| {
        assert buf[start..][..n] == buf[start..start + n];
      } else if start + n < |buf| {
        assert buf[start..][n] == buf[start + n];
      }
    }

    /** Learns a names line: every name is unmapped until found in the table. */
    method BuildInfo(line: Bytes) returns (info: Option<LineInfo>)
      ensures info == BuildLineInfo(line, table)
    {
      var variables := Variables(line);
      if |variables| == 0 {
        return None;
      }
      var prefixLen := IndexOf(line, COLON) + 1;
      var proto := TrimRight(TrimLeft(line[..prefixLen - 1]));
      var indexMap: seq<int> := seq(|variables|, i => -1);
      if proto in table.index {
        for i := 0 to |variables|
          invariant |indexMap| == |variables|
          invariant forall k | 0 <= k < i :: indexMap[k] == ValueIndex(table, proto, variables[k])
          invariant forall k | i <= k < |variables| :: indexMap[k] == -1
        {
          if variables[i] in table.index[proto] {
            indexMap := indexMap[i := table.index[proto][variables[i]]];
          }
        }
      }
      info := Some(LineInfo(line, prefixLen, indexMap));
      assert indexMap == BuildLineInfo(line, table).value.indexMap;
    }

    /** Finds the end of a line and compares it, byte by byte, with the expected one. */
    static method CompareLine(buf: Bytes, start: nat, expectedLine: Bytes) returns (pos: nat, same: bool)
      requires start < |buf|
      ensures pos == start + LineLength(buf[start..])
      ensures same <==> buf[start..pos] == expectedLine && expectedLine != []
    {
      var expectedLen := |expectedLine|;
      pos := start;
      while pos < |buf| && buf[pos] != NL
        invariant start <= pos <= |buf| && NL !in buf[start..pos]
        invariant expectedLen == if Agree(buf[start..pos], expectedLine) then |expectedLine| else 0
      {
        var i := pos - start;
        if i < expectedLen && buf[pos] != expectedLine[i] {
          expectedLen := 0;
        }
        AgreeStep(buf, start, pos, expectedLine);
        pos := pos + 1;
      }
      LineFound(buf, start, pos);
      AgreeWhole(buf[start..pos], expectedLine);
      if pos - start != expectedLen {
        expectedLen := 0;
      }
      same := expectedLen != 0;
    }

    /** A names line: reused from the cache if unchanged, else parsed again, dropping what was cached from there on. */
    method ReadNamesLine(buf: Bytes, start: nat, infoIndex: nat) returns (info: Option<LineInfo>, pos: nat)
      requires start < |buf| && Valid() && infoIndex <= |lineInfo|
      modifies this`lineInfo, this`infoChanged
      ensures Valid() && pos == start + LineLength(buf[start..])
      ensures info == BuildLineInfo(buf[start..pos], table)
      ensures old(lineInfo)[..infoIndex] <= lineInfo
      ensures info.Some? ==> infoIndex < |lineInfo| && lineInfo[infoIndex] == info.value
    {
      var expectedLine: Bytes := if infoIndex < |lineInfo| then lineInfo[infoIndex].line else [];
      var same;
      pos, same := CompareLine(buf, start, expectedLine);
      if same {
        info := Some(lineInfo[infoIndex]);
        return;
      }
      info := Relearn(buf[start..pos], infoIndex);
    }

    /** Learns a line, dropping what was cached from there on. */
    method Relearn(line: Bytes, infoIndex: nat) returns (info: Option<LineInfo>)
      requires Valid() && infoIndex <= |lineInfo|
      modifies this`lineInfo, this`infoChanged
      ensures Valid() && info == BuildLineInfo(line, table)
      ensures lineInfo == old(lineInfo)[..infoIndex] + if info.Some? then [info.value] else []
    {
      if infoIndex < |lineInfo| {
        infoChanged := true;
        lineInfo := lineInfo[..infoIndex];
      }
      info := BuildInfo(line);
      if info.Some? {
        BuiltPrefix(line, table);
        lineInfo := lineInfo + [info.value];
      }
    }

    /** The bytes read so far do not contradict the expected line. */
    static ghost predicate Agree(read: Bytes, expected: Bytes) {
      forall k | 0 <= k < |read| && k < |expected| :: read[k] == expected[k]
    }

    static lemma AgreeStep(buf: Bytes, start: nat, pos: nat, expected: Bytes)
      requires start <= pos < |buf|
      ensures Agree(buf[start..pos + 1], expected) <==>
              Agree(buf[start..pos], expected) && (pos - start < |expected| ==> buf[pos] == expected[pos - start])
    {
      assert buf[start..pos + 1] == buf[start..pos] + [buf[pos]];
    }

    static lemma AgreeWhole(line: Bytes, expected: Bytes)
      ensures Agree(line, expected) && |line| == |expected| <==> line == expected
    {
    }

    static lemma LineFound(buf: Bytes, start: nat, pos: nat)
      requires start <= pos <= |buf| && NL !in buf[start..pos] && (pos < |buf| ==> buf[pos] == NL)
      ensures LineLength(buf[start..]) == pos - start && buf[start..pos] == buf[start..][..LineLength(buf[start..])]
    {
      var s, n := buf[start..], LineLength(buf[start..]);
      assert pos < |buf| ==> s[pos - start] == NL;
      NoneBefore(s, n, NL);
      assert forall k | 0 <= k < pos - start :: s[k] == buf[start..pos][k];
    }

    /** The index map of a line points into the values. */
    lemma IndicesFit(line: Bytes)
      requires TableOk(table)
      ensures var info := BuildLineInfo(line, table);
              info.Some? ==> forall k | 0 <= k < |info.value.indexMap| :: info.value.indexMap[k] < table.size
    {
    }

    lemma NamesLineStep(buf: Bytes, pos: nat, lineEnd: nat, vals: seq<UInt32>)
      requires pos < |buf| && lineEnd == pos + LineLength(buf[pos..])
      requires BuildLineInfo(buf[pos..lineEnd], table).Some?
      ensures var info := BuildLineInfo(buf[pos..lineEnd], table).value;
              var next := if lineEnd < |buf| then lineEnd + 1 else |buf|;
              && info.prefixLen <= |info.line| && BuildLineInfo(info.line, table) == Some(info)
              && ParseFile(buf[pos..], vals, table) == ParseValues(buf[next..], info, vals, table)
    {
      BuiltPrefix(buf[pos..lineEnd], table);
      assert buf[pos..lineEnd] == buf[pos..][..LineLength(buf[pos..])];
      assert lineEnd < |buf| ==> buf[pos..][LineLength(buf[pos..]) + 1..] == buf[lineEnd + 1..];
    }

    ghost predicate Usable(info: LineInfo) {
      && info.prefixLen <= |info.line|
      && forall k | 0 <= k < |info.indexMap| :: info.indexMap[k] < table.size
    }

    method NamesStep(buf: Bytes, pos: nat, infoIndex: nat) returns (info: Option<LineInfo>, next: nat)
      requires pos < |buf| && Valid() && infoIndex <= |lineInfo|
      modifies this`lineInfo, this`infoChanged
      ensures Valid() && pos < next <= |buf|
      ensures info.None? ==> ParseFile(buf[pos..], values, table) == Outcome(values, false)
      ensures info.Some? ==> infoIndex < |lineInfo| && Usable(info.value)
      ensures info.Some? ==> ParseFile(buf[pos..], values, table) == ParseValues(buf[next..], info.value, values, table)
    {
      var lineEnd;
      info, lineEnd := ReadNamesLine(buf, pos, infoIndex);
      next := if lineEnd < |buf| then lineEnd + 1 else |buf|;
      assert buf[pos..lineEnd] == buf[pos..][..LineLength(buf[pos..])];
      if info.Some? {
        NamesLineStep(buf, pos, lineEnd, values);
        IndicesFit(info.value.line);
        BuiltPrefix(buf[pos..lineEnd], table);
      }
    }

    method ValuesStep(buf: Bytes, pos: nat, info: LineInfo) returns (ok: bool, next: nat)
      requires pos < |buf| && Valid() && Usable(info)
      modifies this`values
      ensures Valid() && pos <= next <= |buf|
      ensures ParseValues(buf[pos..], info, old(values), table) ==
              if ok then ParseFile(buf[next..], values, table) else Outcome(values, false)
    {
      ok, next := ReadValuesLine(buf, pos, info);
    }

    /** Parses a file. Whatever is cached, the values and the verdict are those of the reference parser, and what is
        cached stays true to its own lines, on success and on failure. */
    method Parse(buf: Bytes) returns (ok: bool)
      requires Valid()
      modifies this`values, this`lineInfo, this`infoChanged
      ensures Valid()
      ensures Outcome(values, ok) == ParseFile(buf, old(values), table)
    {
      infoChanged := false;
      ok := true;
      // Odd lines hold names, even ones values:
      var pos, isNames, infoIndex := 0, true, 0;
      var info := LineInfo([], 0, []);
      ghost var expected := ParseFile(buf, values, table);
      assert buf[0..] == buf;
      while pos < |buf|
        invariant 0 <= pos <= |buf| && ok && Valid() && Usable(info)
        invariant 0 <= infoIndex <= |lineInfo|
        invariant isNames ==> expected == ParseFile(buf[pos..], values, table)
        invariant !isNames ==> expected == ParseValues(buf[pos..], info, values, table)
        decreases |buf| - pos, !isNames
      {
        if isNames {
          var built, next := NamesStep(buf, pos, infoIndex);
          if built.None? {
            ok := false;
            return;
          }
          info, pos, infoIndex := built.value, next, infoIndex + 1;
        } else {
          ok, pos := ValuesStep(buf, pos, info);
          if !ok {
            return;
          }
        }
        isNames := !isNames;
      }
      assert buf[pos..] == [];
    }
  }
}
