/** The log filter of flog's printer and the summary of skipped levels,
    modelled after their table tests. */
module Printer {

  import opened LogLevel

  /** The four independent constraints of a filter; a field left Undefined
      (zero) imposes no constraint. */
  datatype LogFilter = LogFilter(
    MinLevel: Level,
    MaxLevel: Level,
    BlacklistMask: Level,
    WhitelistMask: Level)

  /** The zero value of LogFilter. */
  const NoFilter: LogFilter := LogFilter(Undefined, Undefined, Undefined, Undefined)

  /** Filters that set one field only, as each test table builds them. */
  function MinOnly(min: Level): LogFilter { NoFilter.(MinLevel := min) }
  function MaxOnly(max: Level): LogFilter { NoFilter.(MaxLevel := max) }
  function BlacklistOnly(mask: Level): LogFilter { NoFilter.(BlacklistMask := mask) }
  function WhitelistOnly(mask: Level): LogFilter { NoFilter.(WhitelistMask := mask) }

  /** The record's level is at least MinLevel, by position among the singular levels. */
  predicate PassesMin(level: Level, min: Level) {
    min == Undefined || Ordinal(level) >= Ordinal(min)
  }

  /** The record's level is at most MaxLevel, by position among the singular levels. */
  predicate PassesMax(level: Level, max: Level) {
    max == Undefined || Ordinal(level) <= Ordinal(max)
  }

  /** The record's level shares no bit with the blacklist. */
  predicate PassesBlacklist(level: Level, mask: Level) {
    level & mask == Undefined
  }

  /** There is no whitelist, or the record's level shares a bit with it. */
  predicate PassesWhitelist(level: Level, mask: Level) {
    mask == Undefined || level & mask != Undefined
  }

  /** shouldIncludeLogInOutput(level, filter): all four constraints hold. A
      record without a level (Undefined) never passes a whitelist. */
  predicate ShouldIncludeLogInOutput(level: Level, filter: LogFilter)
    ensures ShouldIncludeLogInOutput(level, filter) && filter.WhitelistMask != Undefined ==>
              level != Undefined
  {
    PassesMin(level, filter.MinLevel) &&
    PassesMax(level, filter.MaxLevel) &&
    PassesBlacklist(level, filter.BlacklistMask) &&
    PassesWhitelist(level, filter.WhitelistMask)
  }

  // ---------------------------------------------------------------------------
  // General properties
  // ---------------------------------------------------------------------------

  /** An all-zero filter includes every record. */
  lemma NoFilterIncludesAll(level: Level)
    ensures ShouldIncludeLogInOutput(level, NoFilter)
  {
    AndZero(level);
  }

  /** Masking with zero leaves no bit. */
  lemma AndZero(level: Level)
    ensures level & Undefined == Undefined
  {
  }

  /** The decision is the conjunction of the four single-field decisions:
      each field is judged alone, with the other three left zero. */
  lemma ShouldIncludeIsConjunction(level: Level, filter: LogFilter)
    ensures ShouldIncludeLogInOutput(level, filter) <==>
            ShouldIncludeLogInOutput(level, MinOnly(filter.MinLevel)) &&
            ShouldIncludeLogInOutput(level, MaxOnly(filter.MaxLevel)) &&
            ShouldIncludeLogInOutput(level, BlacklistOnly(filter.BlacklistMask)) &&
            ShouldIncludeLogInOutput(level, WhitelistOnly(filter.WhitelistMask))
  {
    AndZero(level);
  }

  /** For singular levels the minimum threshold is the order of the values. */
  lemma MinLevelIsValueOrder(level: Level, min: Level)
    requires IsSingular(level) && IsSingular(min)
    ensures ShouldIncludeLogInOutput(level, MinOnly(min)) <==> min <= level
  {
    AndZero(level);
    OrdinalOrder(min, level);
  }

  /** For singular levels the maximum threshold is the order of the values. */
  lemma MaxLevelIsValueOrder(level: Level, max: Level)
    requires IsSingular(level) && IsSingular(max)
    ensures ShouldIncludeLogInOutput(level, MaxOnly(max)) <==> level <= max
  {
    AndZero(level);
    OrdinalOrder(level, max);
  }

  /** A singular record passes a blacklist exactly when its own bit is not in it. */
  lemma BlacklistExcludesMembers(level: Level, mask: Level)
    requires IsSingular(level)
    ensures ShouldIncludeLogInOutput(level, BlacklistOnly(mask)) <==> !IsSet(mask, Ordinal(level))
  {
    IsSetSingular(mask, level);
    AndCommutes(level, mask);
  }

  /** A singular record passes a whitelist exactly when there is none or its
      own bit is in it. */
  lemma WhitelistAdmitsMembers(level: Level, mask: Level)
    requires IsSingular(level)
    ensures ShouldIncludeLogInOutput(level, WhitelistOnly(mask)) <==>
            mask == Undefined || IsSet(mask, Ordinal(level))
  {
    IsSetSingular(mask, level);
    AndZero(level);
    AndCommutes(level, mask);
  }

  /** Masking is symmetric. */
  lemma AndCommutes(x: Level, y: Level)
    ensures x & y == y & x
  {
  }

  // ---------------------------------------------------------------------------
  // The test tables, row by row
  // ---------------------------------------------------------------------------

  /** TestShouldIncludeLogInOutput_MinLevel. */
  lemma MinLevelTable()
    ensures ShouldIncludeLogInOutput(Fatal, MinOnly(Information))
    ensures ShouldIncludeLogInOutput(Information, MinOnly(Information))
    ensures !ShouldIncludeLogInOutput(Debug, MinOnly(Information))
  {
    AndZero(Fatal);
    AndZero(Information);
  }

  /** TestShouldIncludeLogInOutput_MaxLevel. */
  lemma MaxLevelTable()
    ensures !ShouldIncludeLogInOutput(Fatal, MaxOnly(Information))
    ensures ShouldIncludeLogInOutput(Information, MaxOnly(Information))
    ensures ShouldIncludeLogInOutput(Debug, MaxOnly(Information))
  {
    AndZero(Information);
    AndZero(Debug);
  }

  /** TestShouldIncludeLogInOutput_BlacklistMask. */
  lemma BlacklistTable()
    ensures ShouldIncludeLogInOutput(Warning, BlacklistOnly(Information | Panic))
    ensures !ShouldIncludeLogInOutput(Information, BlacklistOnly(Information | Panic))
    ensures !ShouldIncludeLogInOutput(Panic, BlacklistOnly(Information | Panic))
    ensures ShouldIncludeLogInOutput(Debug, BlacklistOnly(Information | Panic))
  {
  }

  /** TestShouldIncludeLogInOutput_WhitelistMask. */
  lemma WhitelistTable()
    ensures !ShouldIncludeLogInOutput(Warning, WhitelistOnly(Information | Panic))
    ensures ShouldIncludeLogInOutput(Information, WhitelistOnly(Information | Panic))
    ensures ShouldIncludeLogInOutput(Panic, WhitelistOnly(Information | Panic))
    ensures !ShouldIncludeLogInOutput(Debug, WhitelistOnly(Information | Panic))
    ensures ShouldIncludeLogInOutput(Debug, WhitelistOnly(Undefined))
    ensures !ShouldIncludeLogInOutput(Debug, WhitelistOnly(Unknown))
  {
    AndZero(Information);
    AndZero(Panic);
    AndZero(Debug);
  }

  // ---------------------------------------------------------------------------
  // getSkippedLevelsSlice
  // ---------------------------------------------------------------------------

  /** A decimal digit. */
  function Digit(d: nat): char
    requires d < 10
  {
    ('0' as int + d) as char
  }

  /** The value of a text of decimal digits. */
  function DigitsValue(s: string): nat
    requires forall i :: 0 <= i < |s| ==> '0' <= s[i] <= '9'
  {
    if s == [] then 0
    else DigitsValue(s[..|s| - 1]) * 10 + (s[|s| - 1] as int - '0' as int)
  }

  /** The decimal digits of a natural number, most significant first. */
  function NatDigits(n: nat): (s: string)
    ensures |s| > 0
    ensures forall i :: 0 <= i < |s| ==> '0' <= s[i] <= '9'
  {
    if n < 10 then [Digit(n)] else NatDigits(n / 10) + [Digit(n % 10)]
  }

  /** The digits read back give the number. */
  lemma {:induction false} NatDigitsValue(n: nat)
    ensures DigitsValue(NatDigits(n)) == n
  {
    if n >= 10 {
      NatDigitsValue(n / 10);
      var s := NatDigits(n);
      assert s[..|s| - 1] == NatDigits(n / 10);
    }
  }

  /** fmt's `%d`: the decimal digits, after a '-' when the number is negative.
      The digits read back as the number's magnitude. */
  function DecimalString(n: int): (text: string)
    ensures n < 0 ==> |text| > 1 && text[0] == '-'
    ensures forall i :: (if n < 0 then 1 else 0) <= i < |text| ==> '0' <= text[i] <= '9'
    ensures n >= 0 ==> DigitsValue(text) == n
    ensures n < 0 ==> DigitsValue(text[1..]) == -n
  {
    if n < 0 then
      NatDigitsValue(-n);
      assert ("-" + NatDigits(-n))[1..] == NatDigits(-n);
      "-" + NatDigits(-n)
    else
      NatDigitsValue(n);
      NatDigits(n)
  }

  /** One entry of the summary: "<count> <Name>". */
  function SkippedEntry(count: int, lvl: Level): string {
    DecimalString(count) + " " + SingularLevelString(lvl)
  }

  /** The skipped-record counts, keyed like Go's `map[Level]int` by the level's
      integer value. */
  type SkippedCounts = map<int, int>

  /** The entries for the singular levels at positions below `n` that have a count. */
  function SkippedEntries(skipped: SkippedCounts, n: nat): (entries: seq<string>)
    requires n <= |SingularLevels|
    ensures |entries| <= n
  {
    if n == 0 then []
    else
      var lvl := SingularLevels[n - 1];
      SkippedEntries(skipped, n - 1) +
      (if lvl as int in skipped then [SkippedEntry(skipped[lvl as int], lvl)] else [])
  }

  /** getSkippedLevelsSlice(skipped): one entry per singular level that has a
      count, in the order of SingularLevels, whatever order the map is walked in. */
  function GetSkippedLevelsSlice(skipped: SkippedCounts): (summary: seq<string>)
    ensures |summary| <= |SingularLevels|
  {
    SkippedEntries(skipped, |SingularLevels|)
  }

  /** No entries below `n` exactly when no level below `n` has a count. */
  lemma {:induction false} SkippedEntriesEmpty(skipped: SkippedCounts, n: nat)
    requires n <= |SingularLevels|
    ensures SkippedEntries(skipped, n) == [] <==>
            forall k :: 0 <= k < n ==> SingularLevels[k] as int !in skipped
  {
    if n > 0 {
      SkippedEntriesEmpty(skipped, n - 1);
    }
  }

  /** The summary is empty exactly when no singular level has a count. */
  lemma SkippedLevelsSliceEmptyIff(skipped: SkippedCounts)
    ensures GetSkippedLevelsSlice(skipped) == [] <==>
            forall lvl :: IsSingular(lvl) ==> lvl as int !in skipped
  {
    SkippedEntriesEmpty(skipped, |SingularLevels|);
    if forall k :: 0 <= k < |SingularLevels| ==> SingularLevels[k] as int !in skipped {
      forall lvl | IsSingular(lvl)
        ensures lvl as int !in skipped
      {
        OrdinalPosition(lvl);
      }
    } else {
      var k :| 0 <= k < |SingularLevels| && SingularLevels[k] as int in skipped;
      assert IsSingular(SingularLevels[k]);
    }
  }

  /** Two maps with the same counts for the singular levels below `n` give
      the same entries: counts kept for any other value never show. */
  lemma {:induction false} SkippedEntriesAgree(a: SkippedCounts, b: SkippedCounts, n: nat)
    requires n <= |SingularLevels|
    requires forall k :: 0 <= k < n ==> (SingularLevels[k] as int in a <==> SingularLevels[k] as int in b)
    requires forall k :: 0 <= k < n && SingularLevels[k] as int in a ==>
               a[SingularLevels[k] as int] == b[SingularLevels[k] as int]
    ensures SkippedEntries(a, n) == SkippedEntries(b, n)
  {
    if n > 0 {
      SkippedEntriesAgree(a, b, n - 1);
    }
  }

  /** The summary depends only on the counts of the singular levels. */
  lemma SkippedLevelsSliceAgree(a: SkippedCounts, b: SkippedCounts)
    requires forall lvl :: IsSingular(lvl) ==> (lvl as int in a <==> lvl as int in b)
    requires forall lvl :: IsSingular(lvl) && lvl as int in a ==> a[lvl as int] == b[lvl as int]
    ensures GetSkippedLevelsSlice(a) == GetSkippedLevelsSlice(b)
  {
    forall k | 0 <= k < |SingularLevels|
      ensures IsSingular(SingularLevels[k])
    {
    }
    SkippedEntriesAgree(a, b, |SingularLevels|);
  }

  /** TestGetSkippedLevelsSlice_Empty. */
  lemma SkippedLevelsSliceEmpty()
    ensures GetSkippedLevelsSlice(map[]) == []
  {
    SkippedEntriesEmpty(map[], |SingularLevels|);
  }

  /** The input of TestGetSkippedLEvelsSlice_AllInOrder. */
  const AllInOrderCounts: SkippedCounts := map[
    Trace as int := 1, Debug as int := 2, Information as int := 3, Warning as int := 4,
    Error as int := 5, Critical as int := 6, Fatal as int := 7, Panic as int := 8]

  /** TestGetSkippedLEvelsSlice_AllInOrder. */
  lemma SkippedLevelsSliceAllInOrder()
    ensures GetSkippedLevelsSlice(AllInOrderCounts) ==
            ["1 Trace", "2 Debug", "3 Information", "4 Warning",
             "5 Error", "6 Critical", "7 Fatal", "8 Panic"]
  {
    var m := AllInOrderCounts;
    AllInOrderLookups();
    AllInOrderTextsHigh();
    AllInOrderFirstHalf();
    SkippedEntriesStep(m, 6, Error, 5);
    SkippedEntriesStep(m, 7, Critical, 6);
    SkippedEntriesStep(m, 8, Fatal, 7);
    SkippedEntriesStep(m, 9, Panic, 8);
  }

  /** The first four entries of the test's summary. */
  lemma AllInOrderFirstHalf()
    ensures SkippedEntries(AllInOrderCounts, 5) == ["1 Trace", "2 Debug", "3 Information", "4 Warning"]
  {
    var m := AllInOrderCounts;
    AllInOrderLookups();
    AllInOrderTextsLow();
    assert SkippedEntries(m, 1) == [];
    SkippedEntriesStep(m, 2, Trace, 1);
    SkippedEntriesStep(m, 3, Debug, 2);
    SkippedEntriesStep(m, 4, Information, 3);
    SkippedEntriesStep(m, 5, Warning, 4);
  }

  /** The counts of the test's map. */
  lemma AllInOrderLookups()
    ensures Unknown as int !in AllInOrderCounts
    ensures Trace as int in AllInOrderCounts && AllInOrderCounts[Trace as int] == 1
    ensures Debug as int in AllInOrderCounts && AllInOrderCounts[Debug as int] == 2
    ensures Information as int in AllInOrderCounts && AllInOrderCounts[Information as int] == 3
    ensures Warning as int in AllInOrderCounts && AllInOrderCounts[Warning as int] == 4
    ensures Error as int in AllInOrderCounts && AllInOrderCounts[Error as int] == 5
    ensures Critical as int in AllInOrderCounts && AllInOrderCounts[Critical as int] == 6
    ensures Fatal as int in AllInOrderCounts && AllInOrderCounts[Fatal as int] == 7
    ensures Panic as int in AllInOrderCounts && AllInOrderCounts[Panic as int] == 8
  {
  }

  /** The first four entries the test expects. */
  lemma AllInOrderTextsLow()
    ensures SkippedEntry(1, Trace) == "1 Trace"
    ensures SkippedEntry(2, Debug) == "2 Debug"
    ensures SkippedEntry(3, Information) == "3 Information"
    ensures SkippedEntry(4, Warning) == "4 Warning"
  {
    assert SkippedEntry(1, Trace) == "1 Trace" by {
      SkippedEntryText(1, Trace);
    }
    assert SkippedEntry(2, Debug) == "2 Debug" by {
      SkippedEntryText(2, Debug);
    }
    assert SkippedEntry(3, Information) == "3 Information" by {
      SkippedEntryText(3, Information);
    }
    assert SkippedEntry(4, Warning) == "4 Warning" by {
      SkippedEntryText(4, Warning);
    }
  }

  /** The last four entries the test expects. */
  lemma AllInOrderTextsHigh()
    ensures SkippedEntry(5, Error) == "5 Error"
    ensures SkippedEntry(6, Critical) == "6 Critical"
    ensures SkippedEntry(7, Fatal) == "7 Fatal"
    ensures SkippedEntry(8, Panic) == "8 Panic"
  {
    assert SkippedEntry(5, Error) == "5 Error" by {
      SkippedEntryText(5, Error);
    }
    assert SkippedEntry(6, Critical) == "6 Critical" by {
      SkippedEntryText(6, Critical);
    }
    assert SkippedEntry(7, Fatal) == "7 Fatal" by {
      SkippedEntryText(7, Fatal);
    }
    assert SkippedEntry(8, Panic) == "8 Panic" by {
      SkippedEntryText(8, Panic);
    }
  }

  /** A position whose level has a count appends that count's entry. */
  lemma SkippedEntriesStep(skipped: SkippedCounts, n: nat, lvl: Level, count: int)
    requires 0 < n <= |SingularLevels| && SingularLevels[n - 1] == lvl
    requires lvl as int in skipped && skipped[lvl as int] == count
    ensures SkippedEntries(skipped, n) == SkippedEntries(skipped, n - 1) + [SkippedEntry(count, lvl)]
  {
  }

  /** The entry of a one-digit count. */
  lemma SkippedEntryText(count: nat, lvl: Level)
    requires count < 10
    ensures SkippedEntry(count, lvl) == [Digit(count), ' '] + SingularLevelString(lvl)
  {
  }
}
