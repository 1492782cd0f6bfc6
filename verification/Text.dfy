/** The string operations of ECMA-262 that the source leans on: white space, `trim`,
    `split`, `join`, and the text that is left once all white space is ignored. */
module Text {

  datatype Option<+T> = None | Some(value: T)

  /** `\s`, and what `trim` removes: WhiteSpace and LineTerminator (sections 12.2 and 12.3 of ECMA-262). */
  predicate IsSpace(c: char) {
    || c == ' '
    || '\t' <= c <= '\r'
    || c == '\U{A0}'
    || c == '\U{1680}'
    || '\U{2000}' <= c <= '\U{200A}'
    || c == '\U{2028}'
    || c == '\U{2029}'
    || c == '\U{202F}'
    || c == '\U{205F}'
    || c == '\U{3000}'
    || c == '\U{FEFF}'
  }

  /** What `.` does not match in a pattern. Every one of these is white space. */
  predicate IsLineTerminator(c: char) {
    c == '\n' || c == '\r' || c == '\U{2028}' || c == '\U{2029}'
  }

  /** `\w`. */
  predicate IsWordChar(c: char) {
    'a' <= c <= 'z' || 'A' <= c <= 'Z' || '0' <= c <= '9' || c == '_'
  }

  predicate IsOneLine(s: string) {
    forall i | 0 <= i < |s| :: !IsLineTerminator(s[i])
  }

  function TrimStart(s: string): (r: string)
    ensures r != "" ==> !IsSpace(r[0])
    ensures |r| <= |s|
  {
    if s != "" && IsSpace(s[0]) then TrimStart(s[1..]) else s
  }

  function TrimEnd(s: string): (r: string)
    ensures r != "" ==> !IsSpace(r[|r| - 1])
    ensures r <= s
  {
    if s != "" && IsSpace(s[|s| - 1]) then TrimEnd(s[..|s| - 1]) else s
  }

  function Trim(s: string): string {
    TrimEnd(TrimStart(s))
  }

  /** The text of `s` with every white space character left out. */
  function Ink(s: string): string {
    if s == "" then "" else (if IsSpace(s[0]) then "" else [s[0]]) + Ink(s[1..])
  }

  lemma {:induction false} InkConcat(a: string, b: string)
    ensures Ink(a + b) == Ink(a) + Ink(b)
  {
    if a == "" {
      assert a + b == b;
    } else {
      assert (a + b)[1..] == a[1..] + b;
      InkConcat(a[1..], b);
    }
  }

  lemma {:induction false} InkTrimStart(s: string)
    ensures Ink(TrimStart(s)) == Ink(s)
  {
    if s != "" && IsSpace(s[0]) {
      InkTrimStart(s[1..]);
    }
  }

  lemma {:induction false} InkTrimEnd(s: string)
    ensures Ink(TrimEnd(s)) == Ink(s)
  {
    if s != "" && IsSpace(s[|s| - 1]) {
      InkTrimEnd(s[..|s| - 1]);
      InkConcat(s[..|s| - 1], [s[|s| - 1]]);
      assert s == s[..|s| - 1] + [s[|s| - 1]];
    }
  }

  lemma InkTrim(s: string)
    ensures Ink(Trim(s)) == Ink(s)
  {
    InkTrimStart(s);
    InkTrimEnd(TrimStart(s));
  }

  /** A string that keeps a character at its edge after trimming has ink. */
  lemma {:induction false} InkOfTrimmed(s: string)
    requires s != "" && !IsSpace(s[|s| - 1])
    ensures Ink(s) != ""
  {
    InkConcat(s[..|s| - 1], [s[|s| - 1]]);
    assert s == s[..|s| - 1] + [s[|s| - 1]];
    assert [s[|s| - 1]][1..] == "";
  }

  lemma TrimLead(c: char, s: string)
    requires IsSpace(c)
    ensures Trim([c] + s) == Trim(s)
  {
    assert ([c] + s)[1..] == s;
  }

  lemma {:induction false} TrimStartTrail(s: string, c: char)
    requires IsSpace(c)
    ensures TrimStart(s + [c]) == (if TrimStart(s) == "" then "" else TrimStart(s) + [c])
  {
    if s == "" {
      assert s + [c] == [c];
      assert [c][1..] == "";
    } else if IsSpace(s[0]) {
      assert (s + [c])[1..] == s[1..] + [c];
      TrimStartTrail(s[1..], c);
    }
  }

  lemma TrimTrail(s: string, c: char)
    requires IsSpace(c)
    ensures Trim(s + [c]) == Trim(s)
  {
    TrimStartTrail(s, c);
    if TrimStart(s) != "" {
      var t := TrimStart(s);
      assert (t + [c])[..|t + [c]| - 1] == t;
    }
  }

  /** `s.split(sep)` for a one-character separator. */
  function Split(s: string, sep: char): (parts: seq<string>)
    ensures parts != []
    ensures forall i | 0 <= i < |parts| :: sep !in parts[i]
  {
    if s == "" then [""]
    else if s[0] == sep then [""] + Split(s[1..], sep)
    else
      var rest := Split(s[1..], sep);
      [[s[0]] + rest[0]] + rest[1..]
  }

  /** `parts.join(sep)`. */
  function Join(parts: seq<string>, sep: string): string {
    if parts == [] then ""
    else if |parts| == 1 then parts[0]
    else parts[0] + sep + Join(parts[1..], sep)
  }

  lemma {:induction false} SplitPlain(s: string, sep: char)
    requires sep !in s
    ensures Split(s, sep) == [s]
  {
    if s != "" {
      SplitPlain(s[1..], sep);
      assert [s[0]] + s[1..] == s;
    }
  }

  lemma {:induction false} SplitFirst(a: string, sep: char, rest: string)
    requires sep !in a
    ensures Split(a + [sep] + rest, sep) == [a] + Split(rest, sep)
  {
    if a == "" {
      assert (a + [sep] + rest)[1..] == rest;
    } else {
      assert (a + [sep] + rest)[1..] == a[1..] + [sep] + rest;
      SplitFirst(a[1..], sep, rest);
      assert [a[0]] + a[1..] == a;
    }
  }

  /** Joining separator-free parts and splitting again gives them back. */
  lemma {:induction false} SplitJoin(parts: seq<string>, sep: char)
    requires parts != []
    requires forall i | 0 <= i < |parts| :: sep !in parts[i]
    ensures Split(Join(parts, [sep]), sep) == parts
  {
    if |parts| == 1 {
      SplitPlain(parts[0], sep);
    } else {
      SplitFirst(parts[0], sep, Join(parts[1..], [sep]));
      SplitJoin(parts[1..], sep);
    }
  }

  /** Splitting and joining again gives the string back. */
  lemma {:induction false} JoinSplit(s: string, sep: char)
    ensures Join(Split(s, sep), [sep]) == s
  {
    if s != "" {
      JoinSplit(s[1..], sep);
      var rest := Split(s[1..], sep);
      if s[0] == sep {
        assert ([""] + rest)[1..] == rest;
        assert Join([""] + rest, [sep]) == "" + [sep] + Join(rest, [sep]);
      } else {
        var parts := [[s[0]] + rest[0]] + rest[1..];
        assert parts[1..] == rest[1..];
        if |rest| > 1 {
          assert [s[0]] + (rest[0] + [sep] + Join(rest[1..], [sep])) == parts[0] + [sep] + Join(parts[1..], [sep]);
        }
      }
    }
  }

  /** Some parts with one more character at the end. */
  function Trailed(parts: seq<string>, c: char, sep: char): seq<string>
    requires parts != []
  {
    if c == sep then parts + [""] else parts[..|parts| - 1] + [parts[|parts| - 1] + [c]]
  }

  lemma TrailedBehind(first: string, rest: seq<string>, c: char, sep: char)
    requires rest != []
    ensures Trailed([first] + rest, c, sep) == [first] + Trailed(rest, c, sep)
  {
  }

  lemma TrailedFirst(h: char, rest: seq<string>, c: char, sep: char)
    requires rest != []
    ensures var t := Trailed(rest, c, sep);
            Trailed([[h] + rest[0]] + rest[1..], c, sep) == [[h] + t[0]] + t[1..]
  {
    if |rest| > 1 {
      TrailedBehind(rest[0], rest[1..], c, sep);
      TrailedBehind([h] + rest[0], rest[1..], c, sep);
      assert rest == [rest[0]] + rest[1..];
    } else if c != sep {
      assert [h] + (rest[0] + [c]) == ([h] + rest[0]) + [c];
    }
  }

  /** `split` read from the other end. */
  lemma {:induction false} SplitTrail(s: string, c: char, sep: char)
    ensures Split(s + [c], sep) == Trailed(Split(s, sep), c, sep)
  {
    if s == "" {
      assert s + [c] == [c];
      assert [c][1..] == "";
      if c != sep {
        assert [c] + "" == [c] == "" + [c];
      }
    } else {
      var rest := Split(s[1..], sep);
      assert (s + [c])[1..] == s[1..] + [c];
      SplitTrail(s[1..], c, sep);
      hide Trailed;
      TrailedBehind("", rest, c, sep);
      TrailedFirst(s[0], rest, c, sep);
    }
  }

  /** All the strings one after another. */
  function Concat(parts: seq<string>): string {
    if parts == [] then "" else parts[0] + Concat(parts[1..])
  }

  lemma {:induction false} ConcatAppend(a: seq<string>, b: seq<string>)
    ensures Concat(a + b) == Concat(a) + Concat(b)
  {
    if a == [] {
      assert a + b == b;
    } else {
      assert (a + b)[1..] == a[1..] + b;
      ConcatAppend(a[1..], b);
    }
  }

  /** Joining with white space adds no ink. */
  lemma {:induction false} InkJoin(parts: seq<string>, sep: string)
    requires Ink(sep) == ""
    ensures Ink(Join(parts, sep)) == Ink(Concat(parts))
  {
    if |parts| == 1 {
      assert Concat(parts[1..]) == "";
      assert Concat(parts) == parts[0] + "" == parts[0];
    } else if |parts| > 1 {
      InkJoin(parts[1..], sep);
      InkConcat(parts[0], sep);
      InkConcat(parts[0] + sep, Join(parts[1..], sep));
      InkConcat(parts[0], Concat(parts[1..]));
    }
  }

  /** What `startsWith` tests. */
  predicate StartsWith(s: string, prefix: string) {
    |prefix| <= |s| && s[..|prefix|] == prefix
  }

  predicate At(text: string, part: string, i: nat) {
    i + |part| <= |text| && text[i..i + |part|] == part
  }

  /** What `includes` tests. */
  ghost predicate Includes(text: string, part: string) {
    exists i :: At(text, part, i)
  }

  /** `toLowerCase` where only ASCII letters matter. */
  function LowerChar(c: char): char {
    if 'A' <= c <= 'Z' then c - 'A' + 'a' else c
  }

  function Lower(s: string): (r: string)
    ensures |r| == |s|
    ensures forall i | 0 <= i < |s| :: r[i] == LowerChar(s[i])
  {
    seq(|s|, i requires 0 <= i < |s| => LowerChar(s[i]))
  }

  lemma Regroup<T>(a: seq<T>, b: seq<T>, c: seq<T>)
    ensures a + (b + c) == a + b + c
  {
  }

  lemma RegroupFour<T>(a: seq<T>, b: seq<T>, c: seq<T>, d: seq<T>)
    ensures a + b + c + d == a + (b + (c + d))
  {
  }

  /** White space all through. */
  predicate IsBlankText(text: string) {
    forall i | 0 <= i < |text| :: IsSpace(text[i])
  }

  lemma {:induction false} BlankIffNothingLeft(text: string)
    ensures Trim(text) == "" <==> IsBlankText(text)
  {
    hide IsSpace;
    if text != "" {
      var n := |text| - 1;
      if IsSpace(text[0]) {
        BlankIffNothingLeft(text[1..]);
        assert forall i | 1 <= i < |text| :: text[i] == text[1..][i - 1];
      } else {
        InkStays(text);
      }
    }
  }

  lemma {:induction false} InkStays(text: string)
    requires text != "" && !IsSpace(text[0])
    ensures TrimStart(text) == text && TrimEnd(text) != ""
  {
    hide IsSpace;
    if IsSpace(text[|text| - 1]) {
      InkStays(text[..|text| - 1]);
    }
  }
}
