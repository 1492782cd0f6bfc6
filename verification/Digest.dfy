/** `digest.ts`: one bot message out of a list that has no upper bound. */
module Digest {
  import opened Text
  import CallbackData

  const BUDGET: nat := 3500
  const MAX_ENTRIES: nat := 20

  /** `toPersianDigits` on decimal digits. */
  function PersianDigit(c: char): char
    requires '0' <= c <= '9'
  {
    (0x6F0 + (c - '0') as int) as char
  }

  function ToPersianDigits(s: string): (r: string)
    requires forall i | 0 <= i < |s| :: '0' <= s[i] <= '9'
    ensures |r| == |s|
  {
    seq(|s|, i requires 0 <= i < |s| => PersianDigit(s[i]))
  }

  const TAIL_START := "\n\n<i>و "
  const TAIL_END := " مورد دیگه که توی یه پیام جا نشد.</i>"

  function Tail(dropped: nat): string {
    if dropped == 0 then "" else TAIL_START + ToPersianDigits(CallbackData.Decimal(dropped)) + TAIL_END
  }

  function Heading(title: string): string {
    "<b>" + title + "</b>"
  }

  /** What a heading and some entries spend of the budget: two newlines after each. */
  function Spent(title: string, entries: seq<string>): nat
    decreases |entries|
  {
    if entries == [] then |Heading(title)| + 2
    else Spent(title, entries[..|entries| - 1]) + |entries[|entries| - 1]| + 2
  }

  predicate FitsBudget(title: string, entries: seq<string>) {
    Spent(title, entries) <= BUDGET
  }

  function Assembled(title: string, entries: seq<string>, kept: nat): string
    requires kept <= |entries|
  {
    Heading(title) + "\n\n" + Join(entries[..kept], "\n\n") + Tail(|entries| - kept)
  }

  /** How many entries are shown: as many of the first twenty as fit, none skipped, and at least one. */
  ghost predicate IsKept(title: string, entries: seq<string>, kept: nat) {
    && 1 <= kept <= |entries| && kept <= MAX_ENTRIES
    && (kept > 1 ==> FitsBudget(title, entries[..kept]))
    && (kept < |entries| && kept < MAX_ENTRIES ==> !FitsBudget(title, entries[..kept + 1]))
  }

  method BuildDigest(title: string, empty: string, entries: seq<string>)
    returns (message: string, ghost kept: nat)
    ensures entries == [] ==> message == Heading(title) + "\n\n" + empty
    ensures entries != [] ==> IsKept(title, entries, kept) && message == Assembled(title, entries, kept)
  {
    hide ToPersianDigits, CallbackData.Decimal, Join, Spent, IsKept, Tail, TAIL_START, TAIL_END;
    var heading := Heading(title);
    kept := 0;
    if |entries| == 0 {
      return heading + "\n\n" + empty, 0;
    }
    var shown: seq<string> := [];
    var spent := |heading| + 2;
    SpentOfNothing(title);
    var first := if |entries| > MAX_ENTRIES then entries[..MAX_ENTRIES] else entries;
    var i := 0;
    while i < |first|
      invariant i <= |first| && shown == entries[..i]
      invariant spent == Spent(title, entries[..i])
      invariant i > 0 ==> FitsBudget(title, entries[..i])
    {
      var cost := |first[i]| + 2;
      SpentOfNext(title, entries, i);
      if spent + cost > BUDGET {
        break;
      }
      shown := shown + [first[i]];
      spent := spent + cost;
      i := i + 1;
    }
    ghost var fitting := i;
    if |shown| == 0 {
      shown := [entries[0]];
    }
    kept := |shown|;
    StoppedWhereFull(title, entries, fitting, kept);
    var dropped := |entries| - |shown|;
    var tail := if dropped > 0 then TAIL_START + ToPersianDigits(CallbackData.Decimal(dropped)) + TAIL_END else "";
    assert tail == Tail(dropped) by { TailOf(dropped); }
    assert shown == entries[..kept];
    message := heading + "\n\n" + Join(shown, "\n\n") + tail;
  }

  lemma TailOf(dropped: nat)
    ensures Tail(dropped) ==
            if dropped > 0 then TAIL_START + ToPersianDigits(CallbackData.Decimal(dropped)) + TAIL_END else ""
  {
    hide ToPersianDigits, CallbackData.Decimal, TAIL_START, TAIL_END;
  }

  lemma SpentOfNothing(title: string)
    ensures Spent(title, []) == |Heading(title)| + 2
  {
  }

  lemma SpentOfNext(title: string, entries: seq<string>, i: nat)
    requires i < |entries|
    ensures Spent(title, entries[..i + 1]) == Spent(title, entries[..i]) + |entries[i]| + 2
  {
    assert entries[..i + 1][..i] == entries[..i];
  }

  /** The loop stops at the twentieth entry or before the first that does not fit. */
  lemma StoppedWhereFull(title: string, entries: seq<string>, fitting: nat, kept: nat)
    requires entries != [] && fitting <= |entries| && fitting <= MAX_ENTRIES
    requires fitting > 0 ==> FitsBudget(title, entries[..fitting])
    requires fitting < |entries| && fitting < MAX_ENTRIES ==> !FitsBudget(title, entries[..fitting + 1])
    requires kept == if fitting == 0 then 1 else fitting
    ensures IsKept(title, entries, kept)
  {
    if fitting == 0 && |entries| > 1 {
      SpentGrows(title, entries[..2], 1);
      assert entries[..2][..1] == entries[..1];
    }
  }

  lemma {:induction false} SpentGrows(title: string, entries: seq<string>, k: nat)
    requires k <= |entries|
    ensures Spent(title, entries[..k]) <= Spent(title, entries)
    decreases |entries|
  {
    if k < |entries| {
      var shorter := entries[..|entries| - 1];
      SpentGrows(title, shorter, k);
      assert shorter[..k] == entries[..k];
    } else {
      assert entries[..k] == entries;
    }
  }

  /** What is shown is the longest prefix of the first twenty entries that fits: any prefix that fits
      the budget is no longer. */
  lemma KeptIsLongest(title: string, entries: seq<string>, kept: nat, other: nat)
    requires entries != [] && IsKept(title, entries, kept)
    requires other <= |entries| && other <= MAX_ENTRIES && FitsBudget(title, entries[..other])
    ensures other <= kept
  {
    if other > kept {
      assert entries[..other][..kept + 1] == entries[..kept + 1];
      SpentGrows(title, entries[..other], kept + 1);
    }
  }

  lemma {:induction false} SpentIsLength(title: string, entries: seq<string>)
    requires entries != []
    ensures Spent(title, entries) == |Heading(title) + "\n\n" + Join(entries, "\n\n")| + 2
    decreases |entries|
  {
    var n := |entries| - 1;
    if n > 0 {
      SpentIsLength(title, entries[..n]);
      JoinGrows(entries[..n], entries[n]);
      assert entries == entries[..n] + [entries[n]];
    } else {
      assert entries[..0] == [];
    }
  }

  lemma {:induction false} JoinGrows(parts: seq<string>, last: string)
    requires parts != []
    ensures |Join(parts + [last], "\n\n")| == |Join(parts, "\n\n")| + 2 + |last|
  {
    if |parts| > 1 {
      assert (parts + [last])[1..] == parts[1..] + [last];
      JoinGrows(parts[1..], last);
    } else {
      assert (parts + [last])[1..] == [last];
    }
  }

  lemma {:induction false} DecimalLength(n: nat, digits: nat)
    requires 1 <= digits && n < CallbackData.Power10(digits)
    ensures |CallbackData.Decimal(n)| <= digits
  {
    if n >= 10 {
      DecimalLength(n / 10, digits - 1);
    }
  }

  /** What is sent when one entry is shown. */
  function LengthOfOne(title: string, entries: seq<string>): nat
    requires entries != []
  {
    |Heading(title)| + 2 + |entries[0]| + |Tail(|entries| - 1)|
  }

  /** However long the list (an array has fewer than ten thousand million entries), the message stays under
      Telegram's limit if and only if the heading and the first entry are within the budget, or are over it
      and with the tail still under the limit. */
  lemma DigestFitsTelegramIff(title: string, entries: seq<string>, kept: nat)
    requires entries != [] && IsKept(title, entries, kept)
    requires |entries| < 10_000_000_000
    ensures |Assembled(title, entries, kept)| < 4096 <==>
            FitsBudget(title, entries[..1]) || LengthOfOne(title, entries) < 4096
  {
    hide Tail;
    if FitsBudget(title, entries[..1]) {
      DigestFitsTelegram(title, entries, kept);
    } else {
      if kept > 1 {
        FirstFits(title, entries, kept);
      }
      assert Join(entries[..1], "\n\n") == entries[0];
    }
  }

  lemma FirstFits(title: string, entries: seq<string>, kept: nat)
    requires 1 <= kept <= |entries| && FitsBudget(title, entries[..kept])
    ensures FitsBudget(title, entries[..1])
  {
    assert entries[..kept][..1] == entries[..1];
    SpentGrows(title, entries[..kept], 1);
  }

  lemma DigestFitsTelegram(title: string, entries: seq<string>, kept: nat)
    requires entries != [] && IsKept(title, entries, kept)
    requires |entries| < 10_000_000_000
    requires FitsBudget(title, entries[..1])
    ensures |Assembled(title, entries, kept)| < 4096
  {
    assert FitsBudget(title, entries[..kept]);
    SpentIsLength(title, entries[..kept]);
    assert CallbackData.Power10(5) == 100_000;
    assert CallbackData.Power10(10) == 10_000_000_000;
    DecimalLength(|entries| - kept, 10);
  }

  /** The number a digest announces, read back, is exactly what it does not show. */
  lemma AnnouncedIsTheRest(entries: seq<string>, kept: nat)
    requires kept <= |entries|
    ensures var text := ToPersianDigits(CallbackData.Decimal(|entries| - kept));
            kept + PersianValue(text) == |entries|
  {
    PersianRoundTrip(|entries| - kept);
  }

  /** What a reader takes a run of Persian digits for. */
  function PersianValue(s: string): int
  {
    if s == "" then 0 else PersianValue(s[..|s| - 1]) * 10 + (s[|s| - 1] as int - 0x6F0)
  }

  lemma {:induction false} PersianRoundTrip(n: nat)
    ensures PersianValue(ToPersianDigits(CallbackData.Decimal(n))) == n
  {
    var s := CallbackData.Decimal(n);
    var t := ToPersianDigits(s);
    if n >= 10 {
      PersianRoundTrip(n / 10);
      assert t[..|t| - 1] == ToPersianDigits(CallbackData.Decimal(n / 10));
    } else {
      assert t[..0] == "";
    }
  }

  // ---------------------------------------------------------------------------------------
  // What the reader sees.

  /** Each entry under an empty line. */
  function Listed(entries: seq<string>): string {
    if entries == [] then "" else "\n\n" + entries[0] + Listed(entries[1..])
  }

  lemma {:induction false} ListedIsJoined(entries: seq<string>)
    requires entries != []
    ensures Listed(entries) == "\n\n" + Join(entries, "\n\n")
  {
    if |entries| > 1 {
      ListedIsJoined(entries[1..]);
      assert "\n\n" + entries[0] + ("\n\n" + Join(entries[1..], "\n\n"))
          == "\n\n" + (entries[0] + "\n\n" + Join(entries[1..], "\n\n"));
    } else {
      assert entries[1..] == [];
      assert "\n\n" + entries[0] + "" == "\n\n" + entries[0];
    }
  }

  /** The message: the title in bold, the entries shown in their order, each under an empty line, and at the
      end, if some are left out, how many. */
  lemma DigestReads(title: string, entries: seq<string>, kept: nat)
    requires 1 <= kept <= |entries|
    ensures Assembled(title, entries, kept) ==
            "<b>" + title + "</b>" + Listed(entries[..kept])
            + (if kept == |entries| then ""
               else "\n\n<i>و " + ToPersianDigits(CallbackData.Decimal(|entries| - kept))
                    + " مورد دیگه که توی یه پیام جا نشد.</i>")
  {
    hide ToPersianDigits, CallbackData.Decimal, Join, Listed;
    ListedIsJoined(entries[..kept]);
    var heading := "<b>" + title + "</b>";
    assert heading + "\n\n" + Join(entries[..kept], "\n\n") == heading + ("\n\n" + Join(entries[..kept], "\n\n"));
  }

  /** What the budget counts: the title and the entries as they will stand, and two characters, in 3500. */
  lemma BudgetIs(title: string, entries: seq<string>)
    ensures FitsBudget(title, entries) <==> |"<b>" + title + "</b>" + Listed(entries)| + 2 <= 3500
  {
    hide Join, Listed;
    if entries != [] {
      SpentIsLength(title, entries);
      ListedIsJoined(entries);
    } else {
      NothingListed();
      SpentOfNothing(title);
    }
  }

  lemma NothingListed()
    ensures Listed([]) == ""
  {
  }

  /** No more than twenty entries are shown, never none, and more than one only within the budget. */
  lemma KeptWithin(title: string, entries: seq<string>, kept: nat)
    requires IsKept(title, entries, kept)
    ensures 1 <= kept <= 20 && kept <= |entries|
    ensures kept > 1 ==> |"<b>" + title + "</b>" + Listed(entries[..kept])| + 2 <= 3500
    ensures kept < |entries| && kept < 20 ==> |"<b>" + title + "</b>" + Listed(entries[..kept + 1])| + 2 > 3500
  {
    hide Listed, Spent;
    BudgetIs(title, entries[..kept]);
    if kept < |entries| {
      BudgetIs(title, entries[..kept + 1]);
    }
  }
}
