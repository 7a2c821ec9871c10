/** What /proc/net/snmp looks like: writing sections out and parsing the file restores every known value. */
module NetSnmpFormat {
  import opened Common
  import opened NetSnmp

  /** One pair of lines. */
  datatype Section = Section(proto: Bytes, names: seq<Bytes>, vals: seq<int>)

  function Digits(n: nat): Bytes {
    if n < 10 then [ZERO + n] else Digits(n / 10) + [ZERO + n % 10]
  }

  function Decimal(v: int): Bytes {
    if v < 0 then [MINUS] + Digits(-v) else Digits(v)
  }

  /** Space separated words, with a leading space. */
  function Spaced(words: seq<Bytes>): Bytes {
    if words == [] then [] else [SPACE] + words[0] + Spaced(words[1..])
  }

  function Decimals(vals: seq<int>): seq<Bytes> {
    seq(|vals|, i requires 0 <= i < |vals| => Decimal(vals[i]))
  }

  function Render(x: Section): Bytes {
    x.proto + [COLON] + Spaced(x.names) + [NL] + (x.proto + [COLON] + Spaced(Decimals(x.vals)) + [NL])
  }

  function RenderFile(xs: seq<Section>): Bytes {
    if xs == [] then [] else Render(xs[0]) + RenderFile(xs[1..])
  }

  /** Text without white space or colons. */
  predicate IsWord(w: Bytes) {
    w != [] && forall i | 0 <= i < |w| :: PlainAt(w, i)
  }

  predicate PlainAt(w: Bytes, i: nat)
    requires i < |w|
  {
    SpaceLen(w, i) == 0 && w[i] != COLON
  }

  /** 32-bit values, in two's complement where they may be negative. */
  predicate ValueOk(v: int, index: int, table: Table) {
    index < table.size && (v < 0 ==> index < 0 || index in table.mayBeNegative)
  }

  predicate SectionOk(x: Section, table: Table) {
    && IsWord(x.proto) && x.names != [] && |x.names| == |x.vals|
    && forall i | 0 <= i < |x.names| ::
         IsWord(x.names[i]) && ValueOk(x.vals[i], ValueIndex(table, x.proto, x.names[i]), table)
  }

  function Stored(values: seq<UInt32>, index: int, v: int): seq<UInt32> {
    if 0 <= index < |values| then values[index := v % U32] else values
  }

  /** The values of a line stored one after the other. */
  function StoredAll(values: seq<UInt32>, indexMap: seq<int>, vals: seq<int>): seq<UInt32>
    requires |indexMap| == |vals|
    decreases |vals|
  {
    if vals == [] then values else StoredAll(Stored(values, indexMap[0], vals[0]), indexMap[1..], vals[1..])
  }

  function IndexMap(x: Section, table: Table): seq<int> {
    seq(|x.names|, i requires 0 <= i < |x.names| => ValueIndex(table, x.proto, x.names[i]))
  }

  function StoredFile(values: seq<UInt32>, xs: seq<Section>, table: Table): seq<UInt32>
    requires forall k | 0 <= k < |xs| :: SectionOk(xs[k], table)
    decreases |xs|
  {
    if xs == [] then values
    else
      assert SectionOk(xs[0], table);
      StoredFile(StoredAll(values, IndexMap(xs[0], table), xs[0].vals), xs[1..], table)
  }

  // ---------- Numbers ----------

  lemma ModOfTens(q: nat, d: nat)
    requires d < 10
    ensures (q % U32 * 10 + d) % U32 == (q * 10 + d) % U32
  {
    var k, r := q / U32, q % U32;
    assert q * 10 + d == (k * 10) * U32 + (r * 10 + d);
    ModPlus(k * 10, r * 10 + d);
  }

  lemma {:induction false} ModPlus(k: nat, x: nat)
    ensures (k * U32 + x) % U32 == x % U32
  {
    if k > 0 {
      ModPlus(k - 1, x);
      assert k * U32 + x == ((k - 1) * U32 + x) + U32;
      assert (((k - 1) * U32 + x) + U32) % U32 == ((k - 1) * U32 + x) % U32;
    }
  }

  /** Digits are read as their decimal value modulo 2^32. */
  lemma {:induction false} ScanDigits(n: nat, tail: Bytes)
    ensures ScanNumber(Digits(n) + tail, 0, false) == ScanNumber(tail, n % U32, true)
  {
    if n < 10 {
      assert (Digits(n) + tail)[1..] == tail;
    } else {
      var last := [ZERO + n % 10];
      assert Digits(n) + tail == Digits(n / 10) + (last + tail);
      ScanDigits(n / 10, last + tail);
      assert (last + tail)[1..] == tail;
      ModOfTens(n / 10, n % 10);
    }
  }

  lemma DigitsStart(n: nat)
    ensures Digits(n) != [] && IsDigit(Digits(n)[0])
  {
  }

  lemma NegatedIsModulo(v: int)
    requires v < 0
    ensures Negate((-v) % U32) == v % U32
  {
  }

  // ---------- Values lines ----------

  lemma DecimalStart(v: int)
    ensures Decimal(v) != [] && (IsDigit(Decimal(v)[0]) || Decimal(v)[0] == MINUS)
    ensures v < 0 <==> Decimal(v)[0] == MINUS
  {
    DigitsStart(if v < 0 then -v else v);
  }

  lemma DecimalsTail(vals: seq<int>)
    requires vals != []
    ensures Decimals(vals) == [Decimal(vals[0])] + Decimals(vals[1..])
  {
  }

  /** One value at the start of the text, up to the white space or line end after it. */
  lemma ScanDecimal(v: int, after: Bytes)
    requires after != [] && (after[0] == NL || after[0] == SPACE)
    ensures var s := Decimal(v) + after;
            var u := if v < 0 then s[1..] else s;
            && SkipWhitespace(s) == s && (s[0] == MINUS <==> v < 0)
            && ScanNumber(u, 0, false) == Number((if v < 0 then -v else v) % U32, true, after[0] == NL, after[1..])
  {
    DecimalStart(v);
    var s := Decimal(v) + after;
    var m := if v < 0 then -v else v;
    assert (if v < 0 then s[1..] else s) == Digits(m) + after;
    ScanDigits(m, after);
  }

  lemma StoreDecimal(values: seq<UInt32>, index: int, v: int, table: Table)
    requires ValueOk(v, index, table) && |values| == table.size
    ensures StoreValue(values, index, (if v < 0 then -v else v) % U32, v < 0, table) == Some(Stored(values, index, v))
  {
    if v < 0 {
      NegatedIsModulo(v);
    }
  }

  lemma {:induction false} ScanRendered(vals: seq<int>, k: nat, indexMap: seq<int>, values: seq<UInt32>,
                                        table: Table, tail: Bytes)
    requires vals != [] && k + |vals| == |indexMap| && |values| == table.size
    requires forall i | 0 <= i < |vals| :: ValueOk(vals[i], indexMap[k + i], table)
    ensures ScanValues(Decimal(vals[0]) + (Spaced(Decimals(vals[1..])) + [NL] + tail), k, indexMap, values, table) ==
            Good(StoredAll(values, indexMap[k..], vals), |indexMap|, true, tail)
    decreases |vals|
  {
    var v := vals[0];
    var after := Spaced(Decimals(vals[1..])) + [NL] + tail;
    var s := Decimal(v) + after;
    var stored := Stored(values, indexMap[k], v);
    assert indexMap[k..][0] == indexMap[k] && indexMap[k..][1..] == indexMap[k + 1..];
    assert ValueOk(vals[0], indexMap[k + 0], table);
    StoreDecimal(values, indexMap[k], v, table);
    if |vals| == 1 {
      assert after == [NL] + tail;
      ScanDecimal(v, after);
      assert StoredAll(stored, indexMap[k + 1..], vals[1..]) == stored;
    } else {
      DecimalsTail(vals[1..]);
      var next := Decimal(vals[1]) + (Spaced(Decimals(vals[2..])) + [NL] + tail);
      assert vals[1..][1..] == vals[2..];
      assert after == [SPACE] + next;
      ScanDecimal(v, after);
      forall i | 0 <= i < |vals[1..]| ensures ValueOk(vals[1..][i], indexMap[k + 1 + i], table) {
        assert ValueOk(vals[i + 1], indexMap[k + (i + 1)], table);
      }
      ScanRendered(vals[1..], k + 1, indexMap, stored, table, tail);
    }
  }

  lemma LeadingSpace(x: Bytes, count: nat, indexMap: seq<int>, values: seq<UInt32>, table: Table)
    requires x != [] && !IsWhitespace(x[0]) && count < |indexMap|
    ensures ScanValues([SPACE] + x, count, indexMap, values, table) == ScanValues(x, count, indexMap, values, table)
  {
    assert ([SPACE] + x)[1..] == x;
    assert SkipWhitespace([SPACE] + x) == x == SkipWhitespace(x);
  }

  lemma SpacedScans(x: Section, indexMap: seq<int>, values: seq<UInt32>, table: Table, tail: Bytes)
    requires SectionOk(x, table) && |values| == table.size && indexMap == IndexMap(x, table)
    ensures ScanValues(Spaced(Decimals(x.vals)) + [NL] + tail, 0, indexMap, values, table) ==
            Good(StoredAll(values, indexMap, x.vals), |indexMap|, true, tail)
  {
    SpacedSplits(x.vals, tail);
    ScanRendered(x.vals, 0, indexMap, values, table, tail);
    assert indexMap[0..] == indexMap;
    LeadingSpace(Decimal(x.vals[0]) + (Spaced(Decimals(x.vals[1..])) + [NL] + tail), 0, indexMap, values, table);
  }

  lemma Regrouped(a: Bytes, b: Bytes, c: Bytes, d: Bytes, e: Bytes)
    ensures a + b + c + d + e == a + (b + (c + d + e))
    ensures a + b + (c + d) + e == a + b + (c + d + e)
  {
  }

  lemma SpacedSplits(vals: seq<int>, tail: Bytes)
    requires vals != []
    ensures var first := Decimal(vals[0]) + (Spaced(Decimals(vals[1..])) + [NL] + tail);
            first != [] && !IsWhitespace(first[0]) && Spaced(Decimals(vals)) + [NL] + tail == [SPACE] + first
  {
    DecimalsTail(vals);
    DecimalStart(vals[0]);
    Regrouped([SPACE], Decimal(vals[0]), Spaced(Decimals(vals[1..])), [NL], tail);
  }

  lemma ScannedLine(s: Bytes, info: LineInfo, values: seq<UInt32>, table: Table, stored: seq<UInt32>, tail: Bytes)
    requires info.prefixLen <= |info.line| && info.line[..info.prefixLen] <= s
    requires ScanValues(s[info.prefixLen..], 0, info.indexMap, values, table) ==
             Good(stored, |info.indexMap|, true, tail)
    ensures ParseValuesLine(s, info, values, table) == Good(stored, |info.indexMap|, true, tail)
  {
  }

  lemma AfterPrefix(prefix: Bytes, a: Bytes, b: Bytes, c: Bytes)
    ensures prefix <= prefix + a + b + c && (prefix + a + b + c)[|prefix|..] == a + b + c
  {
  }

  lemma ValuesLineParses(x: Section, info: LineInfo, values: seq<UInt32>, table: Table, tail: Bytes)
    requires SectionOk(x, table) && |values| == table.size
    requires info.prefixLen == |x.proto| + 1 <= |info.line| && info.line[..info.prefixLen] == x.proto + [COLON]
    requires info.indexMap == IndexMap(x, table)
    ensures ParseValuesLine(x.proto + [COLON] + Spaced(Decimals(x.vals)) + [NL] + tail, info, values, table) ==
            Good(StoredAll(values, info.indexMap, x.vals), |x.vals|, true, tail)
  {
    var prefix := x.proto + [COLON];
    var s := prefix + Spaced(Decimals(x.vals)) + [NL] + tail;
    AfterPrefix(prefix, Spaced(Decimals(x.vals)), [NL], tail);
    SpacedScans(x, info.indexMap, values, table, tail);
    ScannedLine(s, info, values, table, StoredAll(values, info.indexMap, x.vals), tail);
  }

  // ---------- Names lines ----------

  /** No white space starts in a word and ends after it, as what follows a word is plain white space. */
  lemma PlainBefore(w: Bytes, rest: Bytes)
    requires w != [] && SpaceLen(w, 0) == 0 && (rest == [] || rest[0] == SPACE)
    ensures SpaceLen(w + rest, 0) == 0
  {
  }

  lemma {:induction false} FieldsOfWord(word: Bytes, w: Bytes, rest: Bytes)
    requires (forall i | 0 <= i < |w| :: PlainAt(w, i)) && (rest == [] || rest[0] == SPACE)
    ensures Fields(word, w + rest) == Fields(word + w, rest)
    decreases |w|
  {
    if w == [] {
      assert w + rest == rest && word + w == word;
    } else {
      assert PlainAt(w, 0);
      PlainBefore(w, rest);
      assert (w + rest)[1..] == w[1..] + rest;
      forall i | 0 <= i < |w[1..]| ensures PlainAt(w[1..], i) {
        assert PlainAt(w, i + 1);
      }
      FieldsOfWord(word + [w[0]], w[1..], rest);
      assert word + [w[0]] + w[1..] == word + w;
    }
  }

  lemma {:induction false} FieldsOfWords(words: seq<Bytes>)
    requires words != [] && forall i | 0 <= i < |words| :: IsWord(words[i])
    ensures Fields([], words[0] + Spaced(words[1..])) == words
    decreases |words|
  {
    var rest := Spaced(words[1..]);
    assert IsWord(words[0]);
    FieldsOfWord([], words[0], rest);
    assert [] + words[0] == words[0];
    if |words| > 1 {
      FieldsOfWords(words[1..]);
      assert words[1..][1..] == words[2..];
      assert rest[1..] == words[1] + Spaced(words[2..]);
      assert words == [words[0]] + words[1..];
    }
  }

  lemma TrimsNothing(w: Bytes)
    requires IsWord(w)
    ensures TrimRight(TrimLeft(w)) == w
  {
    assert PlainAt(w, 0) && PlainAt(w, |w| - 1);
    assert |w| >= 2 ==> PlainAt(w, |w| - 2);
    assert |w| >= 3 ==> PlainAt(w, |w| - 3);
  }

  lemma WordBytes(w: Bytes)
    requires IsWord(w)
    ensures forall i | 0 <= i < |w| :: w[i] != NL && w[i] != COLON
  {
    forall i | 0 <= i < |w| ensures w[i] != NL && w[i] != COLON {
      assert PlainAt(w, i);
    }
  }

  lemma NamesLineBuilds(x: Section, table: Table)
    requires SectionOk(x, table)
    ensures var line := x.proto + [COLON] + Spaced(x.names);
            BuildLineInfo(line, table) == Some(LineInfo(line, |x.proto| + 1, IndexMap(x, table)))
  {
    var line := x.proto + [COLON] + Spaced(x.names);
    var i := IndexOf(line, COLON);
    assert line[|x.proto|] == COLON;
    NoneBefore(line, i, COLON);
    WordBytes(x.proto);
    assert forall k | 0 <= k < |x.proto| :: line[k] == x.proto[k];
    assert i == |x.proto|;
    assert Spaced(x.names) == [SPACE] + (x.names[0] + Spaced(x.names[1..]));
    assert line[i + 2..] == x.names[0] + Spaced(x.names[1..]);
    forall k | 0 <= k < |x.names| ensures IsWord(x.names[k]) {}
    FieldsOfWords(x.names);
    assert line[..i] == x.proto;
    TrimsNothing(x.proto);
    assert Variables(line) == x.names;
    assert BuildLineInfo(line, table).value.indexMap == IndexMap(x, table);
  }

  lemma {:induction false} SpacedHasNoNewline(words: seq<Bytes>)
    requires forall i | 0 <= i < |words| :: IsWord(words[i])
    ensures NL !in Spaced(words)
    decreases |words|
  {
    if words != [] {
      WordBytes(words[0]);
      SpacedHasNoNewline(words[1..]);
    }
  }

  lemma FirstLine(line: Bytes, rest: Bytes)
    requires NL !in line
    ensures LineLength(line + [NL] + rest) == |line|
    ensures (line + [NL] + rest)[..|line|] == line && AfterLine(line + [NL] + rest) == rest
  {
    var s := line + [NL] + rest;
    var n := LineLength(s);
    assert s[|line|] == NL;
    NoneBefore(s, n, NL);
    assert forall k | 0 <= k < |line| :: s[k] == line[k];
  }

  // ---------- Files ----------

  lemma SectionParses(x: Section, values: seq<UInt32>, table: Table, tail: Bytes)
    requires SectionOk(x, table) && |values| == table.size
    ensures ParseFile(Render(x) + tail, values, table) ==
            ParseFile(tail, StoredAll(values, IndexMap(x, table), x.vals), table)
  {
    var line := x.proto + [COLON] + Spaced(x.names);
    var second := x.proto + [COLON] + Spaced(Decimals(x.vals)) + [NL] + tail;
    Regrouped(line, [NL], x.proto + [COLON] + Spaced(Decimals(x.vals)), [NL], tail);
    forall k | 0 <= k < |x.names| ensures IsWord(x.names[k]) {}
    SpacedHasNoNewline(x.names);
    WordBytes(x.proto);
    FirstLine(line, second);
    NamesLineBuilds(x, table);
    var info := LineInfo(line, |x.proto| + 1, IndexMap(x, table));
    assert line[..info.prefixLen] == x.proto + [COLON];
    ValuesLineParses(x, info, values, table, tail);
  }

  lemma StoredAllKeepsSize(values: seq<UInt32>, indexMap: seq<int>, vals: seq<int>)
    requires |indexMap| == |vals|
    ensures |StoredAll(values, indexMap, vals)| == |values|
    decreases |vals|
  {
    if vals != [] {
      StoredAllKeepsSize(Stored(values, indexMap[0], vals[0]), indexMap[1..], vals[1..]);
    }
  }

  /** Parsing a written file restores every known value, and only those, whatever the values were before. */
  lemma {:induction false} RoundTrip(xs: seq<Section>, values: seq<UInt32>, table: Table)
    requires |values| == table.size && forall k | 0 <= k < |xs| :: SectionOk(xs[k], table)
    ensures ParseFile(RenderFile(xs), values, table) == Outcome(StoredFile(values, xs, table), true)
    decreases |xs|
  {
    if xs != [] {
      assert SectionOk(xs[0], table);
      SectionParses(xs[0], values, table, RenderFile(xs[1..]));
      StoredAllKeepsSize(values, IndexMap(xs[0], table), xs[0].vals);
      RoundTrip(xs[1..], StoredAll(values, IndexMap(xs[0], table), xs[0].vals), table);
    }
  }

  /** A known value that is not overwritten later is the one that was written, modulo 2^32. */
  lemma {:induction false} LastStoredWins(values: seq<UInt32>, indexMap: seq<int>, vals: seq<int>, k: nat)
    requires |indexMap| == |vals| && k < |vals| && 0 <= indexMap[k] < |values|
    requires forall j | k < j < |vals| :: indexMap[j] != indexMap[k]
    ensures |StoredAll(values, indexMap, vals)| == |values|
    ensures StoredAll(values, indexMap, vals)[indexMap[k]] == vals[k] % U32
    decreases |vals|
  {
    var next := Stored(values, indexMap[0], vals[0]);
    StoredAllKeepsSize(values, indexMap, vals);
    if k > 0 {
      LastStoredWins(next, indexMap[1..], vals[1..], k - 1);
    } else {
      NotStoredIsKept(next, indexMap[1..], vals[1..], indexMap[0]);
    }
  }

  lemma NotStoredIsKept(values: seq<UInt32>, indexMap: seq<int>, vals: seq<int>, i: nat)
    requires |indexMap| == |vals| && i < |values| && forall j | 0 <= j < |vals| :: indexMap[j] != i
    ensures |StoredAll(values, indexMap, vals)| == |values| && StoredAll(values, indexMap, vals)[i] == values[i]
    decreases |vals|
  {
    if vals != [] {
      NotStoredIsKept(Stored(values, indexMap[0], vals[0]), indexMap[1..], vals[1..], i);
    }
  }

  predicate SectionsOk(xs: seq<Section>, table: Table) {
    forall k | 0 <= k < |xs| :: SectionOk(xs[k], table)
  }

  /** No name of the section stands for the value at `i`. */
  predicate Omits(x: Section, table: Table, i: int) {
    forall j | 0 <= j < |x.names| :: ValueIndex(table, x.proto, x.names[j]) != i
  }

  lemma SectionOmits(x: Section, values: seq<UInt32>, table: Table, i: nat)
    requires SectionOk(x, table) && i < |values| && Omits(x, table, i)
    ensures var stored := StoredAll(values, IndexMap(x, table), x.vals); |stored| == |values| && stored[i] == values[i]
  {
    forall j | 0 <= j < |x.vals| ensures IndexMap(x, table)[j] != i {
    }
    NotStoredIsKept(values, IndexMap(x, table), x.vals, i);
  }

  lemma {:induction false} FileOmits(xs: seq<Section>, values: seq<UInt32>, table: Table, i: nat)
    requires SectionsOk(xs, table) && i < |values| && forall a | 0 <= a < |xs| :: Omits(xs[a], table, i)
    ensures |StoredFile(values, xs, table)| == |values| && StoredFile(values, xs, table)[i] == values[i]
    decreases |xs|
  {
    if xs != [] {
      SectionOmits(xs[0], values, table, i);
      forall a | 0 <= a < |xs[1..]| ensures Omits(xs[1..][a], table, i) {
        assert Omits(xs[a + 1], table, i);
      }
      FileOmits(xs[1..], StoredAll(values, IndexMap(xs[0], table), xs[0].vals), table, i);
    }
  }

  lemma {:induction false} FileStores(xs: seq<Section>, values: seq<UInt32>, table: Table, a: nat, k: nat)
    requires SectionsOk(xs, table) && |values| == table.size && a < |xs| && k < |xs[a].names|
    requires var i := ValueIndex(table, xs[a].proto, xs[a].names[k]);
             && 0 <= i < table.size
             && (forall j | k < j < |xs[a].names| :: ValueIndex(table, xs[a].proto, xs[a].names[j]) != i)
             && (forall b | a < b < |xs| :: Omits(xs[b], table, i))
    ensures |StoredFile(values, xs, table)| == |values|
    ensures StoredFile(values, xs, table)[ValueIndex(table, xs[a].proto, xs[a].names[k])] == xs[a].vals[k] % U32
    decreases |xs|
  {
    assert SectionOk(xs[0], table) && SectionOk(xs[a], table);
    var i := ValueIndex(table, xs[a].proto, xs[a].names[k]);
    var stored := StoredAll(values, IndexMap(xs[0], table), xs[0].vals);
    StoredAllKeepsSize(values, IndexMap(xs[0], table), xs[0].vals);
    forall b | 0 <= b < |xs[1..]| && b + 1 > a ensures Omits(xs[1..][b], table, i) {
      assert Omits(xs[b + 1], table, i);
    }
    if a == 0 {
      LastStoredWins(values, IndexMap(xs[0], table), xs[0].vals, k);
      FileOmits(xs[1..], stored, table, i);
    } else {
      FileStores(xs[1..], stored, table, a - 1, k);
    }
  }

  /** Parsing a written file gives, for every known name that comes last for its value, the value written, modulo
      2^32 ... */
  lemma WrittenIsRead(xs: seq<Section>, values: seq<UInt32>, table: Table, a: nat, k: nat)
    requires SectionsOk(xs, table) && |values| == table.size && a < |xs| && k < |xs[a].names|
    requires var i := ValueIndex(table, xs[a].proto, xs[a].names[k]);
             && 0 <= i < table.size
             && (forall j | k < j < |xs[a].names| :: ValueIndex(table, xs[a].proto, xs[a].names[j]) != i)
             && (forall b | a < b < |xs| :: Omits(xs[b], table, i))
    ensures var out := ParseFile(RenderFile(xs), values, table);
            && out.ok && |out.values| == table.size && SectionOk(xs[a], table)
            && out.values[ValueIndex(table, xs[a].proto, xs[a].names[k])] == xs[a].vals[k] % U32
  {
    assert SectionOk(xs[a], table);
    RoundTrip(xs, values, table);
    FileStores(xs, values, table, a, k);
  }

  /** ... and keeps every value that no name in the file stands for. */
  lemma UnwrittenIsKept(xs: seq<Section>, values: seq<UInt32>, table: Table, i: nat)
    requires SectionsOk(xs, table) && |values| == table.size && i < table.size
    requires forall a | 0 <= a < |xs| :: Omits(xs[a], table, i)
    ensures var out := ParseFile(RenderFile(xs), values, table);
            out.ok && |out.values| == table.size && out.values[i] == values[i]
  {
    RoundTrip(xs, values, table);
    FileOmits(xs, values, table, i);
  }

  /** The cache is transparent: a parser with any true cache and one with none agree on every input. */
  method CacheIsTransparent(cached: Parser, bare: Parser, buf: Bytes) returns (ok: bool, bareOk: bool)
    requires cached.Valid() && bare.Valid() && cached != bare
    requires cached.table == bare.table && cached.values == bare.values && bare.lineInfo == []
    modifies cached, bare
    ensures cached.Valid() && bare.Valid() && cached.values == bare.values
    ensures ok == bareOk
  {
    ok := cached.Parse(buf);
    bareOk := bare.Parse(buf);
  }
}
