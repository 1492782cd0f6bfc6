/** `escape.ts`: HTML escaping of every value that is interpolated into a Telegram message. */
module Escape {
  import opened Text

  /** `s.replaceAll(c, replacement)` for a one-character pattern. */
  function ReplaceAll(s: string, c: char, replacement: string): string {
    if s == "" then ""
    else (if s[0] == c then replacement else [s[0]]) + ReplaceAll(s[1..], c, replacement)
  }

  function EscapeHtml(value: string): string {
    ReplaceAll(ReplaceAll(ReplaceAll(value, '&', "&amp;"), '<', "&lt;"), '>', "&gt;")
  }

  /** What one character becomes. */
  function EntityOf(c: char): string {
    if c == '&' then "&amp;" else if c == '<' then "&lt;" else if c == '>' then "&gt;" else [c]
  }

  /** What Telegram's HTML mode shows for text without tags: the three entities decoded in one scan. */
  function Decode(s: string): string {
    if s == "" then ""
    else if StartsWith(s, "&amp;") then "&" + Decode(s[5..])
    else if StartsWith(s, "&lt;") then "<" + Decode(s[4..])
    else if StartsWith(s, "&gt;") then ">" + Decode(s[4..])
    else [s[0]] + Decode(s[1..])
  }

  lemma {:induction false} ReplaceAllConcat(a: string, b: string, c: char, r: string)
    ensures ReplaceAll(a + b, c, r) == ReplaceAll(a, c, r) + ReplaceAll(b, c, r)
  {
    if a == "" {
      assert a + b == b;
    } else {
      assert (a + b)[1..] == a[1..] + b;
      ReplaceAllConcat(a[1..], b, c, r);
    }
  }

  lemma {:induction false} ReplaceAllAbsent(s: string, c: char, r: string)
    requires c !in s
    ensures ReplaceAll(s, c, r) == s
  {
    if s != "" {
      ReplaceAllAbsent(s[1..], c, r);
      assert [s[0]] + s[1..] == s;
    }
  }

  lemma EscapeHtmlConcat(a: string, b: string)
    ensures EscapeHtml(a + b) == EscapeHtml(a) + EscapeHtml(b)
  {
    ReplaceAllConcat(a, b, '&', "&amp;");
    var a1, b1 := ReplaceAll(a, '&', "&amp;"), ReplaceAll(b, '&', "&amp;");
    ReplaceAllConcat(a1, b1, '<', "&lt;");
    ReplaceAllConcat(ReplaceAll(a1, '<', "&lt;"), ReplaceAll(b1, '<', "&lt;"), '>', "&gt;");
  }

  lemma EscapeHtmlOne(c: char)
    ensures EscapeHtml([c]) == EntityOf(c)
  {
    hide ReplaceAll;
    ReplaceOne(c, "&amp;");
    ReplaceOne(c, "&lt;");
    ReplaceOne(c, "&gt;");
    if c == '&' {
      ReplaceAllAbsent("&amp;", '<', "&lt;");
      ReplaceAllAbsent("&amp;", '>', "&gt;");
    } else {
      ReplaceAllAbsent([c], '&', "&amp;");
      if c == '<' {
        ReplaceAllAbsent("&lt;", '>', "&gt;");
      } else {
        ReplaceAllAbsent([c], '<', "&lt;");
        if c != '>' {
          ReplaceAllAbsent([c], '>', "&gt;");
        }
      }
    }
  }

  lemma ReplaceOne(c: char, r: string)
    ensures ReplaceAll([c], c, r) == r
  {
    assert [c][1..] == "";
    assert ReplaceAll([c][1..], c, r) == "";
  }

  /** The three passes never touch each other's output: together they map each character on its own. */
  lemma EscapeHtmlStep(c: char, s: string)
    ensures EscapeHtml([c] + s) == EntityOf(c) + EscapeHtml(s)
  {
    EscapeHtmlConcat([c], s);
    EscapeHtmlOne(c);
  }

  /** No angle bracket of the value survives as markup. */
  lemma {:induction false} EscapeHtmlLeavesNoMarkup(s: string)
    ensures '<' !in EscapeHtml(s) && '>' !in EscapeHtml(s)
  {
    if s != "" {
      EscapeHtmlLeavesNoMarkup(s[1..]);
      EscapeHtmlStep(s[0], s[1..]);
      assert s == [s[0]] + s[1..];
    }
  }

  /** The reader sees exactly the value that was escaped; in particular no two values look alike. */
  lemma {:induction false} DecodeEscapeHtml(s: string)
    ensures Decode(EscapeHtml(s)) == s
  {
    if s != "" {
      var e := EscapeHtml(s[1..]);
      DecodeEscapeHtml(s[1..]);
      EscapeHtmlStep(s[0], s[1..]);
      assert s == [s[0]] + s[1..];
      assert EscapeHtml(s) == EntityOf(s[0]) + e;
      DecodeEntity(s[0], e);
    }
  }

  /** One entity decodes to the character it stands for. */
  lemma DecodeEntity(c: char, rest: string)
    ensures Decode(EntityOf(c) + rest) == [c] + Decode(rest)
  {
    var s := EntityOf(c) + rest;
    assert s[|EntityOf(c)|..] == rest;
    if c == '&' {
      assert s[..5] == "&amp;";
    } else if c == '<' {
      assert s[..4] == "&lt;";
      assert s[1] == 'l';
    } else if c == '>' {
      assert s[..4] == "&gt;";
      assert s[1] == 'g';
    } else {
      assert s[0] == c;
      assert forall k | 0 < k <= |s| :: s[..k][0] == c;
    }
  }
}
