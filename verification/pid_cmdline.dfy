/** The parser of /proc/PID/cmdline: NUL separated arguments are turned into the `label_value` text of the Prometheus
    exposition format, and a truncated command line ends in whole UTF-8 characters and `...`. */
module PidCmdline {
  import opened Common

  const NUL: Byte := 0
  const NL: Byte := 10
  const SPACE: Byte := 32
  const QUOTE: Byte := 34
  const DOT: Byte := 46
  const SLASH: Byte := 47
  const BACKSLASH: Byte := 92
  const LOWER_N: Byte := 110

  const DOTS: Bytes := [DOT, DOT, DOT]

  // ---------- Escaping ----------

  /** The bytes that are converted. */
  function ByteConvert(c: Byte): Option<Bytes> {
    if c == NUL then Some([SPACE])
    else if c == NL then Some([BACKSLASH, LOWER_N])
    else if c == BACKSLASH then Some([BACKSLASH, BACKSLASH])
    else if c == QUOTE then Some([BACKSLASH, QUOTE])
    else None
  }

  function EscapeByte(c: Byte): Bytes {
    if ByteConvert(c).Some? then ByteConvert(c).value else [c]
  }

  function Escape(s: Bytes): Bytes {
    if s == [] then [] else Escape(s[..|s| - 1]) + EscapeByte(s[|s| - 1])
  }

  /** How a reader of the exposition format decodes a label value. */
  function Unescape(s: Bytes): Bytes {
    if s == [] then []
    else if s[0] == BACKSLASH && |s| > 1 && s[1] == LOWER_N then [NL] + Unescape(s[2..])
    else if s[0] == BACKSLASH && |s| > 1 && (s[1] == BACKSLASH || s[1] == QUOTE) then [s[1]] + Unescape(s[2..])
    else [s[0]] + Unescape(s[1..])
  }

  /** A legal label value: no raw newline, no bare quote, no stray backslash. */
  predicate LabelSafe(s: Bytes) {
    if s == [] then true
    else if s[0] == BACKSLASH then |s| > 1 && s[1] in [LOWER_N, BACKSLASH, QUOTE] && LabelSafe(s[2..])
    else s[0] != NL && s[0] != QUOTE && LabelSafe(s[1..])
  }

  function NulsAsSpaces(s: Bytes): Bytes {
    seq(|s|, i requires 0 <= i < |s| => if s[i] == NUL then SPACE else s[i])
  }

  function TrimNuls(s: Bytes): Bytes {
    if s != [] && s[|s| - 1] == NUL then TrimNuls(s[..|s| - 1]) else s
  }

  lemma EscapeLast(s: Bytes, c: Byte)
    ensures Escape(s + [c]) == Escape(s) + EscapeByte(c)
  {
    assert (s + [c])[..|s|] == s;
  }

  lemma ConcatAssociates(a: Bytes, b: Bytes, c: Bytes)
    ensures a + (b + c) == a + b + c
  {
  }

  lemma {:induction false} EscapeConcat(a: Bytes, b: Bytes)
    ensures Escape(a + b) == Escape(a) + Escape(b)
    decreases |b|
  {
    if b == [] {
      assert a + b == a;
    } else {
      var rest, c := b[..|b| - 1], b[|b| - 1];
      EscapeConcat(a, rest);
      EscapeLast(a + rest, c);
      EscapeLast(rest, c);
      ConcatAssociates(a, rest, [c]);
      ConcatAssociates(Escape(a), Escape(rest), EscapeByte(c));
      assert b == rest + [c];
    }
  }

  lemma EscapeOne(c: Byte)
    ensures Escape([c]) == EscapeByte(c)
  {
    assert [c][..0] == [];
  }

  /** Text that needs no conversion is copied as it is. */
  lemma {:induction false} EscapeStretch(s: Bytes)
    requires forall i | 0 <= i < |s| :: ByteConvert(s[i]).None?
    ensures Escape(s) == s
    decreases |s|
  {
    if s != [] {
      EscapeStretch(s[..|s| - 1]);
      assert s == s[..|s| - 1] + [s[|s| - 1]];
    }
  }

  lemma UnescapeStep(c: Byte, t: Bytes)
    ensures Unescape(EscapeByte(c) + t) == [if c == NUL then SPACE else c] + Unescape(t)
    ensures LabelSafe(EscapeByte(c) + t) == LabelSafe(t)
  {
    var e := EscapeByte(c);
    assert (e + t)[|e|..] == t;
    assert (e + t)[0] == e[0] && (|e| > 1 ==> (e + t)[1] == e[1]);
  }

  lemma EscapeFirst(c: Byte, rest: Bytes)
    ensures Escape([c] + rest) == EscapeByte(c) + Escape(rest)
  {
    EscapeConcat([c], rest);
    EscapeOne(c);
  }

  lemma NulsFirst(c: Byte, rest: Bytes)
    ensures NulsAsSpaces([c] + rest) == [if c == NUL then SPACE else c] + NulsAsSpaces(rest)
  {
  }

  /** Un-escaping restores the bytes, NULs read as spaces; what was escaped is a legal label value. */
  lemma {:induction false} UnescapeOfEscape(s: Bytes)
    ensures Unescape(Escape(s)) == NulsAsSpaces(s) && LabelSafe(Escape(s))
    decreases |s|
  {
    if s != [] {
      var c, rest := s[0], s[1..];
      UnescapeOfEscape(rest);
      EscapeFirst(c, rest);
      NulsFirst(c, rest);
      UnescapeStep(c, Escape(rest));
      assert s == [c] + rest;
    }
  }

  // ---------- UTF-8 ----------

  predicate IsContinuation(c: Byte) {
    0x80 <= c < 0xC0
  }

  /** The length of a character by its first byte, per the table in section 3 of RFC 3629; 0 if it starts none. */
  function CharLength(c: Byte): nat {
    if c < 0x80 then 1
    else if 0xC0 <= c < 0xE0 then 2
    else if 0xE0 <= c < 0xF0 then 3
    else if 0xF0 <= c < 0xF8 then 4
    else 0
  }

  predicate IsChar(c: Bytes) {
    && c != [] && |c| == CharLength(c[0])
    && forall i | 1 <= i < |c| :: IsContinuation(c[i])
  }

  predicate AreChars(chars: seq<Bytes>) {
    forall i | 0 <= i < |chars| :: IsChar(chars[i])
  }

  function Text(chars: seq<Bytes>): Bytes {
    if chars == [] then [] else chars[0] + Text(chars[1..])
  }

  /** Where the dots go: the rightmost character start at least 3 places from the end, looked for in 3 places. */
  function CutFrom(s: Bytes, pos: nat, floor: int): (cut: nat)
    requires pos < |s|
    ensures cut <= pos && (cut < pos ==> cut >= floor)
    ensures cut > 0 && cut > floor ==> !IsContinuation(s[cut])
    ensures forall i | cut < i <= pos :: IsContinuation(s[i])
  {
    if pos > 0 && pos > floor && IsContinuation(s[pos]) then CutFrom(s, pos - 1, floor) else pos
  }

  function Cut(s: Bytes): nat
    requires |s| >= 3
  {
    CutFrom(s, |s| - 3, |s| - 6)
  }

  function Truncated(s: Bytes): Bytes
    requires |s| >= 3
  {
    s[..Cut(s)] + DOTS
  }

  /** Every position in valid text is in one of its characters. */
  lemma {:induction false} CharAt(chars: seq<Bytes>, i: nat) returns (k: nat)
    requires AreChars(chars) && i < |Text(chars)|
    ensures k < |chars| && IsChar(chars[k]) && |Text(chars[..k])| <= i < |Text(chars[..k])| + |chars[k]|
    ensures Text(chars[..k]) + chars[k] <= Text(chars)
  {
    assert IsChar(chars[0]);
    if i < |chars[0]| {
      k := 0;
      assert chars[..0] == [];
    } else {
      forall j | 0 <= j < |chars[1..]| ensures IsChar(chars[1..][j]) {
        assert IsChar(chars[j + 1]);
      }
      var m := CharAt(chars[1..], i - |chars[0]|);
      k := m + 1;
      assert chars[..k][1..] == chars[1..][..m];
      assert Text(chars[..k]) + chars[k] == chars[0] + (Text(chars[1..][..m]) + chars[1..][m]);
    }
  }

  /** A character that covers position `i` starts there if the byte is not a continuation, and within the 3 bytes before
      otherwise. */
  lemma StartOfCharAt(chars: seq<Bytes>, i: nat) returns (k: nat, start: nat)
    requires AreChars(chars) && i < |Text(chars)|
    ensures k < |chars| && start <= i <= start + 3 && Text(chars)[..start] == Text(chars[..k])
    ensures !IsContinuation(Text(chars)[start])
    ensures start < i ==> IsContinuation(Text(chars)[i])
  {
    k := CharAt(chars, i);
    start := |Text(chars[..k])|;
    var t := Text(chars[..k]) + chars[k];
    assert Text(chars)[..|t|] == t;
    assert t[start] == chars[k][0] && t[i] == chars[k][i - start];
    assert Text(chars)[start] == t[start] && Text(chars)[i] == t[i];
    assert Text(chars)[..start] == t[..start];
  }

  // ---------- What is parsed ----------

  /** What is left of the bytes read once the end is marked as truncated and the trailing NULs are dropped. */
  function Raw(s: Bytes, truncated: bool): Bytes
    requires truncated ==> |s| >= 3
  {
    TrimNuls(if truncated then Truncated(s) else s)
  }

  /** Truncating valid text, wherever the read stopped, leaves whole characters followed by the dots, and at most the
      last six bytes of what was read are replaced. */
  lemma TruncationKeepsWholeChars(chars: seq<Bytes>, s: Bytes) returns (k: nat)
    requires AreChars(chars) && s <= Text(chars) && |s| >= 3
    ensures k <= |chars| && Raw(s, true) == Text(chars[..k]) + DOTS
    ensures |s| - 3 <= |Raw(s, true)| <= |s|
  {
    var t, i := Text(chars), Cut(s);
    var start;
    k, start := StartOfCharAt(chars, i);
    assert forall j | 0 <= j < |s| :: s[j] == t[j];
    assert s[..i] == t[..i];
    if start < i {
      assert i == |s| - 6;
      var m, start' := StartOfCharAt(chars, |s| - 3);
      assert false;
    }
  }

  function FirstNul(s: Bytes): (i: nat)
    requires NUL in s
    ensures i < |s| && s[i] == NUL && NUL !in s[..i]
  {
    if s[0] == NUL then 0
    else
      assert s == [s[0]] + s[1..];
      var i := FirstNul(s[1..]);
      assert s[..i + 1] == [s[0]] + s[1..][..i];
      i + 1
  }

  /** The command: what is before the first NUL. */
  function Arg0(raw: Bytes): Bytes {
    if NUL in raw then raw[..FirstNul(raw)] else raw
  }

  /** The arguments: what is after the first NUL. */
  function ArgsOf(raw: Bytes): Bytes {
    if NUL in raw then raw[FirstNul(raw) + 1..] else []
  }

  function AfterLastSlash(s: Bytes): Bytes {
    if s == [] || s[|s| - 1] == SLASH then [] else AfterLastSlash(s[..|s| - 1]) + [s[|s| - 1]]
  }

  /** It is the text without a slash that is preceded by nothing or by a slash. */
  lemma {:induction false} AfterLastSlashIsBase(s: Bytes) returns (start: nat)
    ensures start <= |s| && AfterLastSlash(s) == s[start..]
    ensures SLASH !in s[start..] && (start > 0 ==> s[start - 1] == SLASH)
    decreases |s|
  {
    if s == [] || s[|s| - 1] == SLASH {
      start := |s|;
    } else {
      start := AfterLastSlashIsBase(s[..|s| - 1]);
      assert s[start..] == s[..|s| - 1][start..] + [s[|s| - 1]];
    }
  }

  lemma {:induction false} AfterLastSlashConcat(s: Bytes, e: Bytes)
    requires SLASH !in e
    ensures AfterLastSlash(s + e) == AfterLastSlash(s) + e
    decreases |e|
  {
    if e == [] {
      assert s + e == s;
    } else {
      var e' := e[..|e| - 1];
      assert (s + e)[..|s + e| - 1] == s + e';
      AfterLastSlashConcat(s, e');
      assert e == e' + [e[|e| - 1]];
    }
  }

  lemma EscapedSlash(c: Byte)
    ensures if c == SLASH then EscapeByte(c) == [SLASH] else SLASH !in EscapeByte(c)
  {
  }

  lemma NothingAfterSlash(s: Bytes)
    ensures AfterLastSlash(s + [SLASH]) == []
  {
  }

  /** Escaping and dropping the directories commute: the command alone is a legal label value too. */
  lemma {:induction false} CommandOfEscaped(s: Bytes)
    ensures AfterLastSlash(Escape(s)) == Escape(AfterLastSlash(s))
    decreases |s|
  {
    if s != [] {
      var rest, c := s[..|s| - 1], s[|s| - 1];
      EscapeLast(rest, c);
      EscapedSlash(c);
      if c == SLASH {
        NothingAfterSlash(Escape(rest));
        NothingAfterSlash(rest);
      } else {
        CommandOfEscaped(rest);
        AfterLastSlashConcat(Escape(rest), EscapeByte(c));
        AfterLastSlashConcat(rest, [c]);
        EscapeLast(AfterLastSlash(rest), c);
      }
      assert s == rest + [c];
    }
  }

  /** Converting the first NUL separates the converted command from the converted arguments. */
  lemma SplitOfEscaped(raw: Bytes)
    ensures Escape(raw) == Escape(Arg0(raw)) + (if NUL in raw then [SPACE] else []) + Escape(ArgsOf(raw))
  {
    if NUL in raw {
      var a, b := Arg0(raw), ArgsOf(raw);
      assert raw == a + [NUL] + b;
      EscapeConcat(a + [NUL], b);
      EscapeConcat(a, [NUL]);
      EscapeOne(NUL);
    }
  }

  /** Un-escaping the command, a space if there are arguments, and the arguments gives back every byte of the command
      line, its NULs read as spaces. */
  lemma LabelsRestoreCmdline(raw: Bytes)
    ensures Unescape(Escape(Arg0(raw)) + (if NUL in raw then [SPACE] else []) + Escape(ArgsOf(raw))) ==
            NulsAsSpaces(raw)
  {
    SplitOfEscaped(raw);
    UnescapeOfEscape(raw);
  }

  /** The command with and without its directories and the arguments are legal label values, and the command without its
      directories decodes to the file name it stands for. */
  lemma LabelsAreSafe(raw: Bytes)
    ensures LabelSafe(Escape(Arg0(raw))) && LabelSafe(Escape(ArgsOf(raw)))
    ensures LabelSafe(AfterLastSlash(Escape(Arg0(raw))))
    ensures Unescape(AfterLastSlash(Escape(Arg0(raw)))) == NulsAsSpaces(AfterLastSlash(Arg0(raw)))
  {
    UnescapeOfEscape(Arg0(raw));
    UnescapeOfEscape(ArgsOf(raw));
    CommandOfEscaped(Arg0(raw));
    UnescapeOfEscape(AfterLastSlash(Arg0(raw)));
  }

  /** Only trailing NULs are dropped. */
  lemma {:induction false} TrimNulsDropsOnlyNuls(s: Bytes)
    ensures var r := TrimNuls(s);
            r <= s && (r != [] ==> r[|r| - 1] != NUL) && forall i | |r| <= i < |s| :: s[i] == NUL
    decreases |s|
  {
    if s != [] && s[|s| - 1] == NUL {
      TrimNulsDropsOnlyNuls(s[..|s| - 1]);
    }
  }

  // ---------- The parser ----------

  /** How reading the file ended. */
  datatype Read = Whole | PotentialTruncation | Failed

  class Parser {
    var cmdline: Bytes
    var cmdPath: Bytes
    var args: Bytes
    var cmd: Bytes

    constructor ()
      ensures cmdline == cmdPath == args == cmd == []
    {
      cmdline, cmdPath, args, cmd := [], [], [], [];
    }

    /** Replaces the end of the buffer with dots, from the start of a character. */
    method MarkTruncated(buf: array<Byte>) returns (l: nat)
      requires buf.Length >= 3
      modifies buf
      ensures l <= buf.Length && buf[..l] == Truncated(old(buf[..]))
    {
      ghost var was := buf[..];
      var pos := buf.Length - 3;
      while pos > 0 && pos > buf.Length - 6 && IsContinuation(buf[pos])
        invariant 0 <= pos <= buf.Length - 3
        invariant buf[..] == was
        invariant Cut(was) == CutFrom(was, pos, |was| - 6)
      {
        pos := pos - 1;
      }
      assert Cut(was) == pos;
      l := pos + 3;
      while pos < l
        invariant Cut(was) <= pos <= l == Cut(was) + 3
        invariant buf[..pos] == was[..Cut(was)] + DOTS[..pos - Cut(was)]
      {
        buf[pos] := DOT;
        pos := pos + 1;
      }
    }

    /** What was copied so far is `raw[..pos]` escaped; `cmdEnd` is where the first NUL was converted, -1 if none
        was. */
    static ghost predicate Copied(raw: Bytes, pos: nat, out: Bytes, cmdEnd: int) {
      && pos <= |raw| && out == Escape(raw[..pos])
      && cmdEnd == if NUL in raw[..pos] then |Escape(Arg0(raw))| else -1
    }

    static lemma StretchCopied(raw: Bytes, from: nat, to: nat, out: Bytes, cmdEnd: int)
      requires Copied(raw, from, out, cmdEnd) && from <= to <= |raw|
      requires forall i | from <= i < to :: ByteConvert(raw[i]).None?
      ensures Copied(raw, to, out + raw[from..to], cmdEnd)
    {
      assert raw[..to] == raw[..from] + raw[from..to];
      EscapeConcat(raw[..from], raw[from..to]);
      EscapeStretch(raw[from..to]);
    }

    static lemma ByteCopied(raw: Bytes, pos: nat, out: Bytes, cmdEnd: int)
      requires pos < |raw| && Copied(raw, pos, out, cmdEnd)
      ensures Copied(raw, pos + 1, out + EscapeByte(raw[pos]), if cmdEnd < 0 && raw[pos] == NUL then |out| else cmdEnd)
    {
      assert raw[..pos + 1] == raw[..pos] + [raw[pos]];
      EscapeLast(raw[..pos], raw[pos]);
      if raw[pos] == NUL && NUL !in raw[..pos] {
        FirstNulAt(raw, pos);
      }
    }

    /** Copies a stretch of plain bytes and the conversion of the byte after it, if any. */
    method CopyStretch(buf: array<Byte>, l: nat, pos: nat, cmdEnd: int, ghost raw: Bytes)
      returns (pos': nat, cmdEnd': int)
      requires pos < l <= buf.Length && buf[..l] == raw && Copied(raw, pos, cmdline, cmdEnd)
      modifies `cmdline
      ensures pos < pos' <= l && Copied(raw, pos', cmdline, cmdEnd')
    {
      pos', cmdEnd' := pos, cmdEnd;
      while pos' < l && ByteConvert(buf[pos']).None?
        invariant pos <= pos' <= l
        invariant forall i | pos <= i < pos' :: ByteConvert(raw[i]).None?
      {
        pos' := pos' + 1;
      }
      assert buf[pos..pos'] == raw[pos..pos'];
      StretchCopied(raw, pos, pos', cmdline, cmdEnd);
      cmdline := cmdline + buf[pos..pos'];
      if pos' < l {
        ByteCopied(raw, pos', cmdline, cmdEnd);
        if cmdEnd < 0 && buf[pos'] == NUL {
          cmdEnd' := |cmdline|;
        }
        cmdline := cmdline + ByteConvert(buf[pos']).value;
        pos' := pos' + 1;
      }
    }

    /** Escapes `buf[..l]` into `cmdline`, one stretch of plain bytes and one conversion at a time; `cmdEnd` is
        where the first NUL was converted, -1 if there was none. */
    method EscapeStretches(buf: array<Byte>, l: nat) returns (cmdEnd: int)
      requires l <= buf.Length
      modifies `cmdline
      ensures cmdline == Escape(buf[..l])
      ensures cmdEnd == if NUL in buf[..l] then |Escape(Arg0(buf[..l]))| else -1
    {
      ghost var raw := buf[..l];
      cmdline, cmdEnd := [], -1;
      var pos := 0;
      while pos < l
        invariant pos <= l && buf[..l] == raw && Copied(raw, pos, cmdline, cmdEnd)
      {
        pos, cmdEnd := CopyStretch(buf, l, pos, cmdEnd, raw);
      }
      assert raw[..l] == raw;
    }

    static lemma FirstNulAt(raw: Bytes, pos: nat)
      requires pos < |raw| && raw[pos] == NUL && NUL !in raw[..pos]
      ensures Arg0(raw) == raw[..pos]
    {
      var i := FirstNul(raw);
      assert forall k | 0 <= k < pos :: raw[k] == raw[..pos][k];
      assert forall k | 0 <= k < i :: raw[k] == raw[..i][k];
    }

    /** Where the last slash of the command path is, -1 if there is none. */
    method FindDirEnd() returns (dirEnd: int)
      ensures -1 <= dirEnd < |cmdPath|
      ensures AfterLastSlash(cmdPath) == cmdPath[dirEnd + 1..]
    {
      dirEnd := |cmdPath| - 1;
      assert cmdPath[..dirEnd + 1] == cmdPath;
      while dirEnd >= 0 && cmdPath[dirEnd] != SLASH
        invariant -1 <= dirEnd < |cmdPath|
        invariant AfterLastSlash(cmdPath) == AfterLastSlash(cmdPath[..dirEnd + 1]) + cmdPath[dirEnd + 1..]
      {
        assert cmdPath[..dirEnd + 1][..dirEnd] == cmdPath[..dirEnd];
        dirEnd := dirEnd - 1;
      }
    }

    /** The length of `buf[..l]` without its trailing NULs. */
    method TrimmedLength(buf: array<Byte>, l: nat) returns (l': nat)
      requires l <= buf.Length
      ensures l' <= l && buf[..l'] == TrimNuls(buf[..l])
    {
      l' := l;
      while l' > 0 && buf[l' - 1] == NUL
        invariant l' <= l && TrimNuls(buf[..l']) == TrimNuls(buf[..l])
      {
        assert buf[..l'][..l' - 1] == buf[..l' - 1];
        l' := l' - 1;
      }
    }

    lemma PartsAround(a: Bytes, b: Bytes)
      ensures var s := a + [SPACE] + b; s[..|a|] == a && s[|a| + 1..] == b
    {
    }

    /** Splits `cmdline` at `cmdEnd`, and the command from its directories. */
    method SplitAt(cmdEnd: int, ghost raw: Bytes)
      requires cmdline == Escape(raw)
      requires cmdEnd == if NUL in raw then |Escape(Arg0(raw))| else -1
      modifies `cmdPath, `args, `cmd
      ensures cmdPath == Escape(Arg0(raw)) && args == Escape(ArgsOf(raw)) && cmd == AfterLastSlash(cmdPath)
    {
      SplitOfEscaped(raw);
      PartsAround(Escape(Arg0(raw)), Escape(ArgsOf(raw)));
      if cmdEnd < 0 {
        cmdPath, args := cmdline, [];
      } else {
        cmdPath, args := cmdline[..cmdEnd], cmdline[cmdEnd + 1..];
      }
      var dirEnd := FindDirEnd();
      cmd := if dirEnd < |cmdPath| - 1 then cmdPath[dirEnd + 1..] else [];
    }

    /** Parses what was read of the file into `buf`; a failed read leaves the parser as it was. The end of the text is
        overwritten in the buffer when it may have been truncated, which only happens once a buffer is full. */
    method Parse(buf: array<Byte>, read: Read) returns (ok: bool)
      requires read == PotentialTruncation ==> buf.Length >= 3
      modifies this, buf
      ensures ok <==> read != Failed
      ensures !ok ==> buf[..] == old(buf[..]) && unchanged(this)
      ensures ok ==> var raw := Raw(old(buf[..]), read == PotentialTruncation);
                     cmdPath == Escape(Arg0(raw)) && args == Escape(ArgsOf(raw)) && cmd == AfterLastSlash(cmdPath)
    {
      if read == Failed {
        return false;
      }
      ghost var was := buf[..];
      var l := buf.Length;
      if read == PotentialTruncation {
        l := MarkTruncated(buf);
      } else {
        assert buf[..l] == was;
      }
      l := TrimmedLength(buf, l);
      ghost var raw := buf[..l];
      var cmdEnd := EscapeStretches(buf, l);
      SplitAt(cmdEnd, raw);
      return true;
    }
  }
}
