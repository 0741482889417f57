/** Lines, trimming and substring search on text. */
module Text {
  // ----- lines

  function Split(s: string): (lines: seq<string>)
    ensures lines != []
  {
    if s == "" then [""] else Prepend(s[0], Split(s[1..]))
  }

  function Join(lines: seq<string>): string {
    if lines == [] then "" else if |lines| == 1 then lines[0] else lines[0] + "\n" + Join(lines[1..])
  }

  lemma {:induction false} SplitLine(line: string)
    requires '\n' !in line
    ensures Split(line) == [line]
  {
    if line != "" {
      SplitLine(line[1..]);
      assert line == [line[0]] + line[1..];
    }
  }

  lemma {:induction false} SplitConcat(a: string, b: string)
    ensures Split(a + "\n" + b) == Split(a) + Split(b)
  {
    hide Split;
    var whole := a + "\n" + b;
    SplitStep(whole);
    if a == "" {
      SplitEmpty();
      assert whole[1..] == b;
    } else {
      SplitStep(a);
      SplitConcat(a[1..], b);
      assert whole[1..] == a[1..] + "\n" + b;
      SplitFirst(a[0], Split(a[1..]), Split(b));
    }
  }

  function Prepend(c: char, rest: seq<string>): seq<string>
    requires rest != []
  {
    if c == '\n' then [""] + rest else [[c] + rest[0]] + rest[1..]
  }

  lemma SplitFirst(c: char, rest: seq<string>, more: seq<string>)
    requires rest != []
    ensures Prepend(c, rest + more) == Prepend(c, rest) + more
  {
    assert (rest + more)[1..] == rest[1..] + more;
  }

  lemma SplitEmpty()
    ensures Split("") == [""]
  {
  }

  lemma SplitStep(s: string)
    requires s != ""
    ensures Split(s) == Prepend(s[0], Split(s[1..]))
  {
  }

  /** Lines without line breaks come back from their joined text. */
  lemma {:induction false} SplitJoin(lines: seq<string>)
    requires lines != [] && forall l :: l in lines ==> '\n' !in l
    ensures Split(Join(lines)) == lines
  {
    assert lines[0] in lines;
    SplitLine(lines[0]);
    if |lines| > 1 {
      SplitJoin(lines[1..]);
      SplitConcat(lines[0], Join(lines[1..]));
      assert lines == [lines[0]] + lines[1..];
    } else {
      assert lines == [lines[0]];
    }
  }

  // ----- trimming

  /** White space as in the Unicode property used by strings.TrimSpace. */
  predicate IsSpace(c: char) {
    || '\t' <= c <= '\r' || c == ' ' || c == '\U{85}' || c == '\U{A0}' || c == '\U{1680}'
    || '\U{2000}' <= c <= '\U{200A}' || c == '\U{2028}' || c == '\U{2029}' || c == '\U{202F}'
    || c == '\U{205F}' || c == '\U{3000}'
  }

  function TrimLeft(s: string): string {
    if s != "" && IsSpace(s[0]) then TrimLeft(s[1..]) else s
  }

  function TrimRight(s: string): string {
    if s != "" && IsSpace(s[|s| - 1]) then TrimRight(s[..|s| - 1]) else s
  }

  function TrimSpace(s: string): string {
    TrimRight(TrimLeft(s))
  }

  lemma TrimNothing(s: string)
    requires s == "" || (!IsSpace(s[0]) && !IsSpace(s[|s| - 1]))
    ensures TrimSpace(s) == s
  {
  }

  lemma {:induction false} TrimLeftSpaces(a: string, t: string)
    requires forall c :: c in a ==> IsSpace(c)
    ensures TrimLeft(a + t) == TrimLeft(t)
  {
    hide IsSpace;
    if a == "" {
      assert a + t == t;
    } else {
      assert a[0] in a && (a + t)[1..] == a[1..] + t;
      TrimLeftSpaces(a[1..], t);
    }
  }

  lemma {:induction false} TrimRightSpaces(t: string, b: string)
    requires forall c :: c in b ==> IsSpace(c)
    ensures TrimRight(t + b) == TrimRight(t)
  {
    hide IsSpace;
    if b == "" {
      assert t + b == t;
    } else {
      var n := |b| - 1;
      assert b[n] in b && (t + b)[..|t + b| - 1] == t + b[..n];
      TrimRightSpaces(t, b[..n]);
    }
  }

  /** Trimming takes away exactly the white space around a text. */
  lemma TrimSpaceAround(a: string, t: string, b: string)
    requires (forall c :: c in a ==> IsSpace(c)) && (forall c :: c in b ==> IsSpace(c))
    requires t == "" || (!IsSpace(t[0]) && !IsSpace(t[|t| - 1]))
    ensures TrimSpace(a + t + b) == t
  {
    hide IsSpace;
    assert a + t + b == a + (t + b);
    TrimLeftSpaces(a, t + b);
    if t == "" {
      assert t + b == b && b + "" == b;
      TrimLeftSpaces(b, "");
    } else {
      TrimRightSpaces(t, b);
    }
  }

  lemma {:induction false} TrimLeftBefore(t: string, c: char)
    requires IsSpace(c)
    ensures TrimLeft(t + [c]) == if TrimLeft(t) == "" then "" else TrimLeft(t) + [c]
  {
    hide IsSpace;
    if t == "" {
      assert t + [c] == [c] && [c][1..] == "";
    } else if IsSpace(t[0]) {
      assert (t + [c])[1..] == t[1..] + [c];
      TrimLeftBefore(t[1..], c);
    }
  }

  /** A blank, a tab, a carriage return or a line break at either end makes no difference, so
      that lines may be indented and may end as on Windows; nothing printable is trimmed. */
  lemma EndsTrimmed(line: string, c: char)
    ensures c in " \t\r\n" ==> TrimSpace(line + [c]) == TrimSpace(line) == TrimSpace([c] + line)
    ensures '!' <= c <= '~' ==> TrimSpace([c]) == [c]
  {
    if c in " \t\r\n" {
      assert IsSpace(c);
      hide IsSpace;
      assert ([c] + line)[1..] == line;
      TrimLeftBefore(line, c);
      var t := TrimLeft(line);
      assert (t + [c])[..|t|] == t;
    }
  }

  // ----- substrings

  predicate OccursAt(s: string, part: string, i: nat) {
    i + |part| <= |s| && s[i..i + |part|] == part
  }

  predicate Contains(s: string, part: string) {
    exists i | 0 <= i <= |s| :: OccursAt(s, part, i)
  }

  // ----- numbers

  /** Decimal digits, as %d prints a natural number. */
  function Decimal(n: nat): (s: string)
    ensures s != "" && forall c :: c in s ==> '0' <= c <= '9'
  {
    var d := ['0' + (n % 10) as char];
    if n < 10 then d else Decimal(n / 10) + d
  }

  /** Integers as strconv.FormatInt prints them in base 10. */
  function FormatInt(n: int): string {
    if n < 0 then "-" + Decimal(-n) else Decimal(n)
  }

  function Digits(s: string): int {
    if s == "" then 0 else Digits(s[..|s| - 1]) * 10 + (s[|s| - 1] as int - '0' as int)
  }

  lemma {:induction false} DigitsOfDecimal(n: nat)
    ensures Digits(Decimal(n)) == n
  {
    var d := ['0' + (n % 10) as char];
    assert d[..0] == "";
    if n >= 10 {
      DigitsOfDecimal(n / 10);
      var s := Decimal(n);
      assert s[..|s| - 1] == Decimal(n / 10) && s[|s| - 1] == d[0];
    }
  }

  lemma DecimalInjective(a: nat, b: nat)
    ensures Decimal(a) == Decimal(b) ==> a == b
    ensures Decimal(a)[0] != '-'
  {
    DigitsOfDecimal(a);
    DigitsOfDecimal(b);
    assert Decimal(a)[0] in Decimal(a);
  }

  lemma FormatIntInjective(a: int, b: int)
    requires FormatInt(a) == FormatInt(b)
    ensures a == b
  {
    hide Decimal;
    var m, n := if a < 0 then -a else a, if b < 0 then -b else b;
    DecimalInjective(m, n);
    DecimalInjective(n, m);
    assert a < 0 ==> FormatInt(a)[1..] == Decimal(m);
    assert b < 0 ==> FormatInt(b)[1..] == Decimal(n);
  }

  lemma InTail(c: char, a: string, b: string, k: int)
    requires |a| < k < |a + [c] + b| && (a + [c] + b)[k] == c
    ensures c in b
  {
    assert b[k - |a| - 1] == c;
  }

  /** Splitting at the last separator is unambiguous. */
  lemma LastSeparator(c: char, a: string, b: string, a': string, b': string)
    requires a + [c] + b == a' + [c] + b' && c !in b && c !in b'
    ensures a == a' && b == b'
  {
    var s := a + [c] + b;
    assert s[|a|] == c && s[|a'|] == c;
    if |a| < |a'| {
      InTail(c, a, b, |a'|);
    } else if |a'| < |a| {
      InTail(c, a', b', |a|);
    } else {
      assert a == s[..|a|] && a' == s[..|a|];
      assert b == s[|a| + 1..] && b' == s[|a| + 1..];
    }
  }
}
