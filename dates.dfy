/**
 * `normalize_date`, the date clean-up every city normaliser applies. The
 * repository carries two variants: the one in `example3.py` and
 * `normalize_newyork.py` also reorders `dd/dd/dddd` strings, the one in
 * `normalize_tokyo.py` and `normalize_london.py` has no such branch.
 */
module Dates {
  import opened Wrappers

  /** Which copy of `normalize_date` is meant. */
  datatype DateRules = WithSlashBranch | WithoutSlashBranch

  /** `\d`, restricted to ASCII digits. */
  predicate IsDigit(c: char)
  {
    '0' <= c <= '9'
  }

  predicate DigitsIn(s: string, lo: nat, hi: nat)
    requires lo <= hi <= |s|
  {
    forall i :: lo <= i < hi ==> IsDigit(s[i])
  }

  /** A full match of `^\d{4}-\d{2}-\d{2}$`. */
  predicate IsoShape(s: string)
  {
    |s| == 10 && DigitsIn(s, 0, 4) && s[4] == '-' && DigitsIn(s, 5, 7) && s[7] == '-' && DigitsIn(s, 8, 10)
  }

  /** A full match of `^\d{2}/\d{2}/\d{4}$`. */
  predicate SlashShape(s: string)
  {
    |s| == 10 && DigitsIn(s, 0, 2) && s[2] == '/' && DigitsIn(s, 3, 5) && s[5] == '/' && DigitsIn(s, 6, 10)
  }

  /** `f"{parts[2]}-{parts[0]}-{parts[1]}"` for the three parts of a `dd/dd/dddd` string. */
  function SlashReorder(s: string): string
    requires SlashShape(s)
  {
    s[6..] + "-" + s[..2] + "-" + s[3..5]
  }

  /** `s.split(c)[0]`: everything before the first `c`, or all of `s` when it has none. */
  function BeforeFirst(s: string, c: char): (r: string)
    ensures |r| <= |s| && r == s[..|r|] && c !in r
    ensures c in s ==> |r| < |s| && s[|r|] == c
    ensures c !in s ==> r == s
  {
    if |s| == 0 then ""
    else if s[0] == c then ""
    else [s[0]] + BeforeFirst(s[1..], c)
  }

  /** The cut lands on the first position holding `c`. */
  lemma BeforeFirstAt(s: string, c: char, k: nat)
    requires k < |s| && s[k] == c && forall i :: 0 <= i < k ==> s[i] != c
    ensures BeforeFirst(s, c) == s[..k]
  {
    var r := BeforeFirst(s, c);
    assert s[|r|] == c;
  }

  /** `normalize_date`: three string cases tried in order; anything else comes back as given. */
  function NormalizeDate(rules: DateRules, v: Value): Value
  {
    match v
    case Str(s) =>
      if IsoShape(s) then v
      else if rules == WithSlashBranch && SlashShape(s) then Str(SlashReorder(s))
      else if 'T' in s then Str(BeforeFirst(s, 'T'))
      else v
    case _ => v
  }

  /** An ISO date is already normal, under both variants. */
  lemma IsoUnchanged(rules: DateRules, s: string)
    requires IsoShape(s)
    ensures NormalizeDate(rules, Str(s)) == Str(s)
  {
  }

  /**
   * With the slash branch, `a/b/c` becomes `c-a-b`: an ISO-shaped string whose
   * month slot holds the first (day) field and whose day slot holds the second.
   */
  lemma SlashReordered(s: string)
    requires SlashShape(s)
    ensures var r := NormalizeDate(WithSlashBranch, Str(s));
      r.Str? && IsoShape(r.s) && r.s[..4] == s[6..] && r.s[5..7] == s[..2] && r.s[8..] == s[3..5]
  {
    assert s[4] != '-' by { assert IsDigit(s[4]); }
    var r := SlashReorder(s);
    assert r[..4] == s[6..] && r[5..7] == s[..2] && r[8..] == s[3..5];
    assert forall i :: 0 <= i < 4 ==> r[i] == s[6 + i];
    assert forall i :: 5 <= i < 7 ==> r[i] == s[i - 5];
    assert forall i :: 8 <= i < 10 ==> r[i] == s[i - 5];
  }

  /** A string of neither shape that contains `T` is cut before its first `T`. */
  lemma TimestampCut(rules: DateRules, s: string)
    requires !IsoShape(s) && !(rules == WithSlashBranch && SlashShape(s)) && 'T' in s
    ensures var r := NormalizeDate(rules, Str(s));
      r.Str? && 'T' !in r.s && s[..|r.s| + 1] == r.s + "T"
  {
    var r := BeforeFirst(s, 'T');
    assert s[..|r| + 1] == s[..|r|] + [s[|r|]];
  }

  /** Non-strings, and strings in none of the three forms, come back unchanged. */
  lemma OtherUnchanged(rules: DateRules, v: Value)
    requires v.Str? ==> !IsoShape(v.s) && !(rules == WithSlashBranch && SlashShape(v.s)) && 'T' !in v.s
    ensures NormalizeDate(rules, v) == v
  {
  }

  /** A slash-shaped string holds no `T`, so without the slash branch it is left as it is. */
  lemma {:induction false} SlashDateKeptWithoutBranch(s: string)
    requires SlashShape(s)
    ensures NormalizeDate(WithoutSlashBranch, Str(s)) == Str(s)
  {
    assert s[4] != '-' by { assert IsDigit(s[4]); }
    forall i | 0 <= i < |s| ensures s[i] != 'T' {
      if i != 2 && i != 5 {
        assert IsDigit(s[i]);
      }
    }
  }

  /** Without the slash branch, normalising twice is normalising once. */
  lemma NoSlashIdempotent(v: Value)
    ensures NormalizeDate(WithoutSlashBranch, NormalizeDate(WithoutSlashBranch, v)) ==
      NormalizeDate(WithoutSlashBranch, v)
  {
  }

  /** A date of either shape followed by `T` and a time is cut back to that date. */
  lemma {:induction false} DateThenTime(rules: DateRules, d: string, time: string)
    requires IsoShape(d) || SlashShape(d)
    ensures NormalizeDate(rules, Str(d + "T" + time)) == Str(d)
  {
    var s := d + "T" + time;
    assert s[10] == 'T';
    forall i | 0 <= i < 10 ensures s[i] != 'T' {
      assert s[i] == d[i];
      if IsoShape(d) && i != 4 && i != 7 {
        assert IsDigit(d[i]);
      }
      if SlashShape(d) && i != 2 && i != 5 {
        assert IsDigit(d[i]);
      }
    }
    BeforeFirstAt(s, 'T', 10);
    assert s[..10] == d;
  }

  /** With the slash branch it is not: a cut timestamp can itself be slash-shaped. */
  lemma SlashNotIdempotent()
    ensures NormalizeDate(WithSlashBranch, Str("18/08/2024T00:00")) == Str("18/08/2024")
    ensures NormalizeDate(WithSlashBranch, Str("18/08/2024")) == Str("2024-18-08")
  {
    NewYorkSlashExample();
    assert "18/08/2024T00:00" == "18/08/2024" + "T" + "00:00";
    DateThenTime(WithSlashBranch, "18/08/2024", "00:00");
  }

  /** The New York copy turns the sample `18/08/2024` into `2024-18-08`, swapping day and month. */
  lemma NewYorkSlashExample()
    ensures NormalizeDate(WithSlashBranch, Str("18/08/2024")) == Str("2024-18-08")
  {
    var s := "18/08/2024";
    assert SlashShape(s);
    assert s[4] != '-';
    assert SlashReorder(s) == "2024-18-08";
  }

  /** The Tokyo copy has no slash branch and returns `18/08/2024` as it is. */
  lemma TokyoSlashExample()
    ensures NormalizeDate(WithoutSlashBranch, Str("18/08/2024")) == Str("18/08/2024")
  {
    var s := "18/08/2024";
    assert SlashShape(s);
    SlashDateKeptWithoutBranch(s);
  }

  /** The London copy cuts the sample timestamp `2024-08-18T00:00:00Z` to `2024-08-18`. */
  lemma LondonTimestampExample()
    ensures NormalizeDate(WithoutSlashBranch, Str("2024-08-18T00:00:00Z")) == Str("2024-08-18")
  {
    assert IsoShape("2024-08-18");
    assert "2024-08-18T00:00:00Z" == "2024-08-18" + "T" + "00:00:00Z";
    DateThenTime(WithoutSlashBranch, "2024-08-18", "00:00:00Z");
  }
}
