/**
 * The .NET text primitives the OBJ loader is built on, as functions over a
 * character stream: StreamReader.ReadLine, String.Split (with and without
 * StringSplitOptions.RemoveEmptyEntries) and uint.TryParse.  The directory
 * prefix that the loader uses to resolve `mtllib` files is built here too.
 */
module ObjText {
  import opened Wrappers

  // ---------------------------------------------------------------------
  // StreamReader.ReadLine
  // ---------------------------------------------------------------------

  predicate IsLineBreak(c: char) { c == '\n' || c == '\r' }

  /** Index of the first line break at or after `pos`, or the end of the text. */
  function LineEnd(text: string, pos: nat): (k: nat)
    requires pos <= |text|
    ensures pos <= k <= |text|
    ensures k < |text| ==> IsLineBreak(text[k])
    ensures forall i :: pos <= i < k ==> !IsLineBreak(text[i])
    decreases |text| - pos
  {
    if pos == |text| || IsLineBreak(text[pos]) then pos else LineEnd(text, pos + 1)
  }

  /** What ReadLine hands back (None for the null it returns at the end of
      the stream) and where the stream stands afterwards. */
  datatype LineRead = LineRead(line: Option<string>, next: nat)

  /** StreamReader.ReadLine: the characters up to the next "\n", "\r" or
      "\r\n", which is consumed and not returned; null at the end of the stream. */
  function ReadLine(text: string, pos: nat): (r: LineRead)
    requires pos <= |text|
    ensures r.next <= |text|
    ensures r.line.None? <==> pos == |text|
    ensures r.line.None? ==> r.next == pos
    ensures r.line.Some? ==> pos < r.next
    ensures r.line.Some? ==> var k := pos + |r.line.value|;
      && k <= |text| && text[pos..k] == r.line.value
      && (forall i :: pos <= i < k ==> !IsLineBreak(text[i]))
      && (k == |text| ==> r.next == k)
      && (k < |text| ==> IsLineBreak(text[k]) &&
                         r.next == (if text[k] == '\r' && k + 1 < |text| && text[k + 1] == '\n'
                                    then k + 2 else k + 1))
  {
    if pos == |text| then LineRead(None, pos)
    else
      var k := LineEnd(text, pos);
      var next := if k == |text| then k
                  else if text[k] == '\r' && k + 1 < |text| && text[k + 1] == '\n' then k + 2
                  else k + 1;
      LineRead(Some(text[pos..k]), next)
  }

  // ---------------------------------------------------------------------
  // String.Split(separators, StringSplitOptions.RemoveEmptyEntries)
  // ---------------------------------------------------------------------

  /** Length of the longest prefix of `s` without a character of `seps`. */
  function RunLength(s: string, seps: set<char>): (k: nat)
    ensures k <= |s|
    ensures forall i :: 0 <= i < k ==> s[i] !in seps
    ensures k < |s| ==> s[k] in seps
  {
    if s == [] || s[0] in seps then 0 else 1 + RunLength(s[1..], seps)
  }

  /** The maximal non-empty runs of `s` that hold no separator, in order. */
  function Split(s: string, seps: set<char>): seq<string>
    decreases |s|
  {
    if s == [] then []
    else if s[0] in seps then Split(s[1..], seps)
    else
      var k := RunLength(s, seps);
      [s[..k]] + Split(s[k..], seps)
  }

  /** `s` with every separator removed. */
  function Strip(s: string, seps: set<char>): string
  {
    if s == [] then [] else (if s[0] in seps then [] else [s[0]]) + Strip(s[1..], seps)
  }

  function Concat(ts: seq<string>): string
  {
    if ts == [] then [] else ts[0] + Concat(ts[1..])
  }

  predicate Token(t: string, seps: set<char>)
  {
    |t| > 0 && forall i :: 0 <= i < |t| ==> t[i] !in seps
  }

  lemma StripAppend(a: string, b: string, seps: set<char>)
    ensures Strip(a + b, seps) == Strip(a, seps) + Strip(b, seps)
  {
    if a != [] {
      assert (a + b)[0] == a[0];
      assert (a + b)[1..] == a[1..] + b;
      StripAppend(a[1..], b, seps);
      var h := if a[0] in seps then [] else [a[0]];
      calc {
        Strip(a + b, seps);
        h + Strip(a[1..] + b, seps);
        h + (Strip(a[1..], seps) + Strip(b, seps));
        (h + Strip(a[1..], seps)) + Strip(b, seps);
      }
    } else {
      assert a + b == b;
    }
  }

  lemma {:induction false} StripNone(s: string, seps: set<char>)
    requires forall i :: 0 <= i < |s| ==> s[i] !in seps
    ensures Strip(s, seps) == s
  {
    if s != [] {
      StripNone(s[1..], seps);
    }
  }

  /** Split yields non-empty, separator-free tokens which, put back
      together, give exactly `s` without its separators. */
  lemma {:induction false} SplitTokens(s: string, seps: set<char>)
    ensures forall j :: 0 <= j < |Split(s, seps)| ==> Token(Split(s, seps)[j], seps)
    ensures Concat(Split(s, seps)) == Strip(s, seps)
    decreases |s|
  {
    if s == [] {
    } else if s[0] in seps {
      SplitTokens(s[1..], seps);
    } else {
      var k := RunLength(s, seps);
      SplitTokens(s[k..], seps);
      assert s == s[..k] + s[k..];
      StripAppend(s[..k], s[k..], seps);
      StripNone(s[..k], seps);
    }
  }

  /** A token followed by nothing or by a separator is split off whole. */
  lemma SplitToken(t: string, r: string, seps: set<char>)
    requires Token(t, seps) && (r == [] || r[0] in seps)
    ensures Split(t + r, seps) == [t] + Split(r, seps)
  {
    var s := t + r;
    var k := RunLength(s, seps);
    assert forall i :: 0 <= i < |t| ==> s[i] == t[i];
    if r != [] {
      assert s[|t|] == r[0];
    }
    assert k == |t|;
    assert s[..k] == t && s[k..] == r;
  }

  /** Partner of Split: separator-free tokens joined by one separator split
      back into exactly those tokens, so the tokens are the maximal runs and
      their number is fixed by the line. */
  lemma {:induction false} SplitJoin(ts: seq<string>, sep: char, seps: set<char>)
    requires |ts| >= 1 && sep in seps
    requires forall j :: 0 <= j < |ts| ==> Token(ts[j], seps)
    ensures Split(Join(ts, sep), seps) == ts
    decreases |ts|
  {
    if |ts| == 1 {
      SplitToken(ts[0], [], seps);
      assert ts[0] + [] == ts[0];
    } else {
      var rest := Join(ts[1..], sep);
      SplitJoin(ts[1..], sep, seps);
      SplitToken(ts[0], [sep] + rest, seps);
      assert ts[0] + [sep] + rest == ts[0] + ([sep] + rest);
      assert ([sep] + rest)[1..] == rest;
      assert ts == [ts[0]] + ts[1..];
    }
  }

  // ---------------------------------------------------------------------
  // String.Split(char[]) without options, and the directory prefix
  // ---------------------------------------------------------------------

  /** Index of the first `sep` in `s`, or |s|. */
  function IndexOf(s: string, sep: char): (k: nat)
    ensures k <= |s|
    ensures forall i :: 0 <= i < k ==> s[i] != sep
    ensures k < |s| ==> s[k] == sep
  {
    if s == [] || s[0] == sep then 0 else 1 + IndexOf(s[1..], sep)
  }

  /** All pieces between occurrences of `sep`, empty pieces included. */
  function SplitAll(s: string, sep: char): (parts: seq<string>)
    ensures |parts| >= 1
    decreases |s|
  {
    var k := IndexOf(s, sep);
    if k == |s| then [s] else [s[..k]] + SplitAll(s[k + 1..], sep)
  }

  /** Every piece followed by the separator, as `relativePath += piece + sep` builds it. */
  function Terminated(parts: seq<string>, sep: char): string
  {
    if parts == [] then [] else Terminated(parts[..|parts| - 1], sep) + parts[|parts| - 1] + [sep]
  }

  lemma {:induction false} TerminatedCons(p: string, ps: seq<string>, sep: char)
    ensures Terminated([p] + ps, sep) == p + [sep] + Terminated(ps, sep)
    decreases |ps|
  {
    if ps == [] {
      assert ([p] + ps)[..0] == [];
    } else {
      var last := ps[|ps| - 1];
      assert ([p] + ps)[..|ps|] == [p] + ps[..|ps| - 1];
      TerminatedCons(p, ps[..|ps| - 1], sep);
    }
  }

  predicate NoSeparator(s: string, sep: char)
  {
    forall i :: 0 <= i < |s| ==> s[i] != sep
  }

  function Last(parts: seq<string>): string
    requires |parts| >= 1
  {
    parts[|parts| - 1]
  }

  /** The pieces put back together with the separator between them. */
  function Join(parts: seq<string>, sep: char): string
    requires |parts| >= 1
  {
    if |parts| == 1 then parts[0] else parts[0] + [sep] + Join(parts[1..], sep)
  }

  /** Partner of SplitAll: joining the pieces gives back the string, and no
      piece holds the separator. */
  lemma {:induction false} JoinSplitAll(s: string, sep: char)
    ensures Join(SplitAll(s, sep), sep) == s
    ensures forall j :: 0 <= j < |SplitAll(s, sep)| ==> NoSeparator(SplitAll(s, sep)[j], sep)
    decreases |s|
  {
    var k := IndexOf(s, sep);
    if k < |s| {
      JoinSplitAll(s[k + 1..], sep);
      assert SplitAll(s, sep)[1..] == SplitAll(s[k + 1..], sep);
      assert s == s[..k] + [sep] + s[k + 1..];
    }
  }

  /** Terminating all pieces but the last and appending the last is joining. */
  lemma {:induction false} TerminatedJoin(parts: seq<string>, sep: char)
    requires |parts| >= 1
    ensures Terminated(parts[..|parts| - 1], sep) + Last(parts) == Join(parts, sep)
    decreases |parts|
  {
    if |parts| == 1 {
      assert parts[..0] == [];
    } else {
      var ps := parts[1..];
      var t := Terminated(ps[..|ps| - 1], sep);
      TerminatedJoin(ps, sep);
      assert t + Last(ps) == Join(ps, sep);
      assert parts[..|parts| - 1] == [parts[0]] + ps[..|ps| - 1];
      TerminatedCons(parts[0], ps[..|ps| - 1], sep);
      assert Terminated(parts[..|parts| - 1], sep) == parts[0] + [sep] + t;
      assert Last(parts) == Last(ps);
      assert (parts[0] + [sep] + t) + Last(ps) == parts[0] + [sep] + (t + Last(ps));
    }
  }

  /** The position of the last `sep` in `s`, or -1 when there is none. */
  function LastIndexOf(s: string, sep: char): (k: int)
    ensures -1 <= k < |s|
    ensures k >= 0 ==> s[k] == sep
    ensures forall i :: k < i < |s| ==> s[i] != sep
  {
    if s == [] then -1
    else if s[|s| - 1] == sep then |s| - 1
    else LastIndexOf(s[..|s| - 1], sep)
  }

  /** The directory part of a path: everything up to and including the
      last separator. */
  function DirectoryOf(path: string, sep: char): string
  {
    path[..LastIndexOf(path, sep) + 1]
  }

  /** Lines 139-142 of the loader: split the absolute path on the separator
      and append every piece but the last, each followed by the separator.
      The result is the longest prefix of the path that is empty or ends in
      the separator: the directory the file lives in. */
  method DirectoryPrefix(absolutePath: string, sep: char) returns (prefix: string)
    ensures prefix == DirectoryOf(absolutePath, sep)
    ensures prefix <= absolutePath
    ensures prefix == [] || prefix[|prefix| - 1] == sep
    ensures forall i :: |prefix| <= i < |absolutePath| ==> absolutePath[i] != sep
  {
    var parts := SplitAll(absolutePath, sep);
    prefix := "";
    for i := 0 to |parts| - 1
      invariant prefix == Terminated(parts[..i], sep)
    {
      assert parts[..i + 1][..i] == parts[..i];
      prefix := prefix + parts[i] + [sep];
    }
    JoinSplitAll(absolutePath, sep);
    TerminatedJoin(parts, sep);
    var last := Last(parts);
    assert NoSeparator(parts[|parts| - 1], sep);
    assert absolutePath == prefix + last;
    forall i | |prefix| <= i < |absolutePath|
      ensures absolutePath[i] != sep
    {
      assert absolutePath[i] == last[i - |prefix|];
    }
    var k := LastIndexOf(absolutePath, sep);
    if prefix != [] {
      assert absolutePath[|prefix| - 1] == sep;
    }
    assert k + 1 == |prefix|;
  }

  // ---------------------------------------------------------------------
  // uint.TryParse
  // ---------------------------------------------------------------------

  const UIntMax: nat := 0xFFFF_FFFF

  predicate IsDigit(c: char) { '0' <= c <= '9' }

  /** The white space that NumberStyles.Integer allows around a number. */
  predicate IsWhite(c: char) { c == ' ' || '\t' <= c <= '\r' }

  predicate AllDigits(s: string) { forall i :: 0 <= i < |s| ==> IsDigit(s[i]) }

  /** The value of a string of decimal digits. */
  function DigitsValue(s: string): nat
    requires AllDigits(s)
  {
    if s == [] then 0 else 10 * DigitsValue(s[..|s| - 1]) + (s[|s| - 1] as int - '0' as int)
  }

  function TrimStart(s: string): (r: string)
    ensures |r| <= |s|
  {
    if s != [] && IsWhite(s[0]) then TrimStart(s[1..]) else s
  }

  function TrimEnd(s: string): (r: string)
    ensures |r| <= |s|
  {
    if s != [] && IsWhite(s[|s| - 1]) then TrimEnd(s[..|s| - 1]) else s
  }

  /** The '\0' characters at the end of a string, which TryParse ignores
      after the number and its trailing white space. */
  function TrimNul(s: string): (r: string)
    ensures |r| <= |s|
  {
    if s != [] && s[|s| - 1] == '\0' then TrimNul(s[..|s| - 1]) else s
  }

  /** uint.TryParse as the loader uses it: the value of the token when it is
      an optionally '+'-signed run of decimal digits, optionally surrounded by
      white space and followed by '\0' characters, and fits in 32 bits;
      otherwise the 0 TryParse leaves in its out-parameter.  (A '-' sign never
      yields anything but 0 for uint.) */
  function ParseUInt(token: string): (r: nat)
    ensures r <= UIntMax
  {
    var t := TrimEnd(TrimNul(TrimStart(token)));
    var body := if |t| > 0 && t[0] == '+' then t[1..] else t;
    if |body| > 0 && AllDigits(body) && DigitsValue(body) <= UIntMax then DigitsValue(body) else 0
  }

  /** A run of digits has no white space or '\0' to trim. */
  lemma DigitsUntrimmed(s: string)
    requires |s| > 0 && AllDigits(s)
    ensures TrimEnd(TrimNul(TrimStart(s))) == s
  {
    assert !IsWhite(s[0]) && !IsWhite(s[|s| - 1]) && s[|s| - 1] != '\0';
  }

  /** TrimNul drops '\0' characters from the back and nothing else. */
  lemma {:induction false} TrimNulPrefix(s: string)
    ensures var r := TrimNul(s);
      r == s[..|r|] && forall i :: |r| <= i < |s| ==> s[i] == '\0'
  {
    if s != [] && s[|s| - 1] == '\0' {
      TrimNulPrefix(s[..|s| - 1]);
    }
  }

  /** `k` '\0' characters after a last character that is not one all go. */
  lemma {:induction false} TrimNulAppend(s: string, k: nat)
    requires |s| > 0 && s[|s| - 1] != '\0'
    ensures TrimNul(s + seq(k, _ => '\0')) == s
  {
    var u := s + seq(k, _ => '\0');
    if k > 0 {
      assert u[..|u| - 1] == s + seq(k - 1, _ => '\0');
      TrimNulAppend(s, k - 1);
    } else {
      assert u == s;
    }
  }

  /** TrimStart drops white space from the front and nothing else. */
  lemma {:induction false} TrimStartSuffix(s: string)
    ensures var r := TrimStart(s);
      r == s[|s| - |r|..] && forall i :: 0 <= i < |s| - |r| ==> IsWhite(s[i])
  {
    if s != [] && IsWhite(s[0]) {
      TrimStartSuffix(s[1..]);
    }
  }

  /** TrimEnd drops white space from the back and nothing else. */
  lemma {:induction false} TrimEndPrefix(s: string)
    ensures var r := TrimEnd(s);
      r == s[..|r|] && forall i :: |r| <= i < |s| ==> IsWhite(s[i])
  {
    if s != [] && IsWhite(s[|s| - 1]) {
      TrimEndPrefix(s[..|s| - 1]);
    }
  }

  /** The shortest decimal spelling of `n`. */
  function Decimal(n: nat): (s: string)
    ensures |s| > 0 && AllDigits(s)
  {
    if n < 10 then [('0' as int + n) as char]
    else Decimal(n / 10) + [('0' as int + n % 10) as char]
  }

  lemma {:induction false} DecimalValue(n: nat)
    ensures DigitsValue(Decimal(n)) == n
  {
    if n >= 10 {
      var s := Decimal(n);
      assert s[..|s| - 1] == Decimal(n / 10);
      DecimalValue(n / 10);
    }
  }

  /** Partner of ParseUInt: every 32-bit value written in decimal parses back to itself. */
  lemma ParseDecimal(n: nat)
    requires n <= UIntMax
    ensures ParseUInt(Decimal(n)) == n
  {
    var s := Decimal(n);
    DecimalValue(n);
    DigitsUntrimmed(s);
  }

  /** TryParse fails, and the loader reads 0, on a token holding a character
      that is neither a digit, white space nor '+': a '-' sign, a letter, a
      decimal point, or a '\0' that does not end the token. */
  lemma ForeignCharParsesToZero(token: string, i: nat)
    requires i < |token| && !IsDigit(token[i]) && !IsWhite(token[i]) && token[i] != '+'
    requires token[i] == '\0' ==> token[|token| - 1] != '\0'
    ensures ParseUInt(token) == 0
  {
    var a := TrimStart(token);
    var b := TrimNul(a);
    var t := TrimEnd(b);
    TrimStartSuffix(token);
    TrimNulPrefix(a);
    TrimEndPrefix(b);
    var off := |token| - |a|;
    assert i >= off;
    assert a[i - off] == token[i];
    assert a[|a| - 1] == token[|token| - 1];
    assert i - off < |b|;
    assert b[i - off] == token[i];
    assert i - off < |t|;
    assert t[i - off] == token[i];
    if |t| > 0 && t[0] == '+' {
      assert t[1..][i - off - 1] == token[i];
    }
  }

  /** TryParse fails, and the loader reads 0, on a number too large for 32 bits. */
  lemma OverflowParsesToZero(n: nat)
    requires n > UIntMax
    ensures ParseUInt(Decimal(n)) == 0
  {
    var s := Decimal(n);
    DecimalValue(n);
    DigitsUntrimmed(s);
  }

  /** TryParse accepts '\0' characters after a number: the value is read as
      if they were not there. */
  lemma TrailingNulsIgnored(n: nat, k: nat)
    requires n <= UIntMax
    ensures ParseUInt(Decimal(n) + seq(k, _ => '\0')) == n
  {
    var d := Decimal(n);
    var s := d + seq(k, _ => '\0');
    assert s[0] == d[0];
    assert TrimStart(s) == s;
    TrimNulAppend(d, k);
    ParseDecimal(n);
  }
}
