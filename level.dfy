/** Severity levels of flog: a bitmask over nine singular flags, its rendering
    as text and the parsing of level names. */
module LogLevel {

  import opened Strings

  /** Go's `Level int`. Only bitwise operators, equality and the order of the
      small constants below are ever applied to it, so it is modelled as a
      64-bit bit-vector (the width of Go's `int` on the targeted platforms). */
  type Level = bv64

  const Undefined: Level := 0
  const Unknown: Level := 0x001  // 1 << 0
  const Trace: Level := 0x002  // 1 << 1
  const Debug: Level := 0x004  // 1 << 2
  const Information: Level := 0x008  // 1 << 3
  const Warning: Level := 0x010  // 1 << 4
  const Error: Level := 0x020  // 1 << 5
  const Critical: Level := 0x040  // 1 << 6
  const Fatal: Level := 0x080  // 1 << 7
  const Panic: Level := 0x100  // 1 << 8

  /** The nine singular levels, in the order in which they are rendered. */
  const SingularLevels: seq<Level> :=
    [Unknown, Trace, Debug, Information, Warning, Error, Critical, Fatal, Panic]

  /** The union of all singular levels: the only bits a Level's text depends on. */
  const SingularBits: Level := 0x1FF

  predicate IsSingular(lvl: Level) {
    lvl in SingularLevels
  }

  /** The position of a level in SingularLevels, or -1 when it is not singular. */
  function Ordinal(lvl: Level): int {
    if lvl == Unknown then 0
    else if lvl == Trace then 1
    else if lvl == Debug then 2
    else if lvl == Information then 3
    else if lvl == Warning then 4
    else if lvl == Error then 5
    else if lvl == Critical then 6
    else if lvl == Fatal then 7
    else if lvl == Panic then 8
    else -1
  }

  /** Ordinal finds the position of exactly the singular levels. */
  lemma OrdinalPosition(lvl: Level)
    ensures -1 <= Ordinal(lvl) < |SingularLevels|
    ensures Ordinal(lvl) == -1 <==> !IsSingular(lvl)
    ensures Ordinal(lvl) >= 0 ==> SingularLevels[Ordinal(lvl)] == lvl
  {
  }

  /** The constants: Undefined is zero and is not singular, and the singular
      levels are the powers of two 1 << 0 .. 1 << 8, strictly increasing. */
  lemma SingularLevelsArePowersOfTwo()
    ensures Undefined == 0 && !IsSingular(Undefined)
    ensures |SingularLevels| == 9
    ensures forall i :: 0 <= i < |SingularLevels| ==> SingularLevels[i] == (1 as Level) << i
    ensures forall i, j :: 0 <= i < j < |SingularLevels| ==> SingularLevels[i] < SingularLevels[j]
  {
  }

  /** Each singular level's ordinal is its position in SingularLevels. */
  lemma SingularLevelsOrdinals()
    ensures forall k :: 0 <= k < |SingularLevels| ==> Ordinal(SingularLevels[k]) == k
  {
  }

  /** For singular levels, comparing positions in SingularLevels is comparing
      the values themselves. */
  lemma OrdinalOrder(a: Level, b: Level)
    requires IsSingular(a) && IsSingular(b)
    ensures Ordinal(a) <= Ordinal(b) <==> a <= b
  {
    SingularLevelsArePowersOfTwo();
    OrdinalPosition(a);
    OrdinalPosition(b);
  }

  /** The text for a value with no singular bit. */
  const UndefinedName: string := "Undefined"

  /** The canonical name of a singular level; any other value is "Undefined".
      Every name is a non-empty word without a separator. */
  function SingularLevelString(lvl: Level): (name: string)
    ensures |name| > 0 && Separator !in name
  {
    if lvl == Unknown then "Unknown"
    else if lvl == Trace then "Trace"
    else if lvl == Debug then "Debug"
    else if lvl == Information then "Information"
    else if lvl == Warning then "Warning"
    else if lvl == Error then "Error"
    else if lvl == Critical then "Critical"
    else if lvl == Fatal then "Fatal"
    else if lvl == Panic then "Panic"
    else UndefinedName
  }

  /** Only values that are not singular fall through to "Undefined". */
  lemma SingularLevelStringUndefined(lvl: Level)
    ensures SingularLevelString(lvl) == UndefinedName <==> !IsSingular(lvl)
  {
  }

  /** Distinct singular levels have distinct names. */
  lemma SingularLevelStringInjective(a: Level, b: Level)
    requires IsSingular(a) && IsSingular(b)
    requires SingularLevelString(a) == SingularLevelString(b)
    ensures a == b
  {
  }

  // ---------------------------------------------------------------------------
  // Rendering: Level.String()
  // ---------------------------------------------------------------------------

  /** Go's `lvl&singularLevels[k] != Undefined`: the k-th singular bit is set in `lvl`. */
  predicate IsSet(lvl: Level, k: nat)
    requires k < |SingularLevels|
  {
    lvl & SingularLevels[k] != Undefined
  }

  /** The positions below `n` in SingularLevels whose bit is set in `lvl`, in
      ascending order; built from the back, as the rendering loop visits them. */
  function SetPositions(lvl: Level, n: nat): (ks: seq<nat>)
    requires n <= |SingularLevels|
    ensures forall i :: 0 <= i < |ks| ==> ks[i] < n
  {
    if n == 0 then []
    else SetPositions(lvl, n - 1) + (if IsSet(lvl, n - 1) then [n - 1] else [])
  }

  /** The names of the singular levels at the given positions, one per position. */
  function Names(ks: seq<nat>): (names: seq<string>)
    requires forall i :: 0 <= i < |ks| ==> ks[i] < |SingularLevels|
    ensures |names| == |ks|
  {
    if ks == [] then []
    else Names(ks[..|ks| - 1]) + [SingularLevelString(SingularLevels[ks[|ks| - 1]])]
  }

  /** The text of a mask: the names of its set singular bits, in the order of
      SingularLevels, joined by '|'; "Undefined" when no singular bit is set.
      The text is never empty. */
  function Format(lvl: Level): (text: string)
    ensures |text| > 0
  {
    var ks := SetPositions(lvl, |SingularLevels|);
    var names := Names(ks);
    if names == [] then UndefinedName
    else
      NamesShape(ks);
      JoinEmpty(names);
      Join(names)
  }

  /** Level.String(): walks SingularLevels and appends the name of every level
      whose bit is set, with a '|' in front of all but the first. */
  method String(lvl: Level) returns (s: string)
    ensures s == Format(lvl)
  {
    var b: string := "";
    for i := 0 to |SingularLevels|
      invariant b == Join(Names(SetPositions(lvl, i)))
    {
      b := WriteLevel(lvl, i, b);
    }
    FinishText(lvl, b);
    if |b| == 0 {
      return UndefinedName;
    }
    return b;
  }

  /** One iteration of Level.String(): the name of the singular level at
      position `i` is appended when its bit is set, after a '|' unless it is
      the first name. */
  method WriteLevel(lvl: Level, i: nat, b: string) returns (b': string)
    requires i < |SingularLevels|
    requires b == Join(Names(SetPositions(lvl, i)))
    ensures b' == Join(Names(SetPositions(lvl, i + 1)))
  {
    b' := b;
    var singularLevel := SingularLevels[i];
    if IsSet(lvl, i) {
      AppendName(lvl, i, b);
      if |b'| > 0 {
        b' := b' + [Separator];
      }
      b' := b' + SingularLevelString(singularLevel);
    } else {
      SkipName(lvl, i);
    }
  }

  /** A set bit appends its name to the text so far, after a separator unless
      the text is still empty. */
  lemma AppendName(lvl: Level, i: nat, before: string)
    requires i < |SingularLevels| && IsSet(lvl, i)
    requires before == Join(Names(SetPositions(lvl, i)))
    ensures Join(Names(SetPositions(lvl, i + 1))) ==
            (if |before| > 0 then before + [Separator] else before) + SingularLevelString(SingularLevels[i])
  {
    var done := SetPositions(lvl, i);
    assert SetPositions(lvl, i + 1) == done + [i];
    NamesStep(done, i);
    JoinStep(Names(done), SingularLevelString(SingularLevels[i]));
    NamesShape(done);
    JoinEmpty(Names(done));
  }

  /** A clear bit leaves the text as it is. */
  lemma SkipName(lvl: Level, i: nat)
    requires i < |SingularLevels| && !IsSet(lvl, i)
    ensures Join(Names(SetPositions(lvl, i + 1))) == Join(Names(SetPositions(lvl, i)))
  {
    assert SetPositions(lvl, i + 1) == SetPositions(lvl, i);
  }

  /** The text after the last position: "Undefined" when nothing was appended. */
  lemma FinishText(lvl: Level, b: string)
    requires b == Join(Names(SetPositions(lvl, |SingularLevels|)))
    ensures (if |b| == 0 then UndefinedName else b) == Format(lvl)
  {
    NoPositionsText(lvl);
  }

  /** The joined text of all set positions is empty exactly when none is set. */
  lemma NoPositionsText(lvl: Level)
    ensures |Join(Names(SetPositions(lvl, |SingularLevels|)))| == 0 <==>
            Names(SetPositions(lvl, |SingularLevels|)) == []
  {
    NamesShape(SetPositions(lvl, |SingularLevels|));
    JoinEmpty(Names(SetPositions(lvl, |SingularLevels|)));
  }

  /** One more position adds one more name at the end. */
  lemma NamesStep(ks: seq<nat>, k: nat)
    requires forall i :: 0 <= i < |ks| ==> ks[i] < |SingularLevels|
    requires k < |SingularLevels|
    ensures Names(ks + [k]) == Names(ks) + [SingularLevelString(SingularLevels[k])]
  {
    assert (ks + [k])[..|ks|] == ks;
  }

  /** Every name in a list of names is a non-empty word without '|'. */
  lemma NamesShape(ks: seq<nat>)
    requires forall i :: 0 <= i < |ks| ==> ks[i] < |SingularLevels|
    ensures forall i :: 0 <= i < |ks| ==> |Names(ks)[i]| > 0 && Separator !in Names(ks)[i]
  {
    forall i | 0 <= i < |ks|
      ensures |Names(ks)[i]| > 0 && Separator !in Names(ks)[i]
    {
      NamesAt(ks, i);
    }
  }

  /** The i-th name is the name of the i-th position. */
  lemma {:induction false} NamesAt(ks: seq<nat>, i: nat)
    requires forall j :: 0 <= j < |ks| ==> ks[j] < |SingularLevels|
    requires i < |ks|
    ensures Names(ks)[i] == SingularLevelString(SingularLevels[ks[i]])
  {
    if i < |ks| - 1 {
      NamesAt(ks[..|ks| - 1], i);
    }
  }

  /** SetPositions holds exactly the positions below `n` whose bit is set. */
  lemma {:induction false} SetPositionsMembers(lvl: Level, n: nat)
    requires n <= |SingularLevels|
    ensures forall k: nat :: k in SetPositions(lvl, n) <==> k < n && IsSet(lvl, k)
  {
    if n > 0 {
      SetPositionsMembers(lvl, n - 1);
      var before, here := SetPositions(lvl, n - 1), IsSet(lvl, n - 1);
      assert SetPositions(lvl, n) == before + (if here then [n - 1] else []);
      forall k: nat
        ensures k in SetPositions(lvl, n) <==> k < n && IsSet(lvl, k)
      {
        if k == n - 1 {
          assert k !in before;
        }
      }
    }
  }

  /** SetPositions is strictly ascending: every set bit is listed once, in level order. */
  lemma {:induction false} SetPositionsAscending(lvl: Level, n: nat)
    requires n <= |SingularLevels|
    ensures forall i, j :: 0 <= i < j < |SetPositions(lvl, n)| ==>
              SetPositions(lvl, n)[i] < SetPositions(lvl, n)[j]
  {
    if n > 0 {
      SetPositionsAscending(lvl, n - 1);
    }
  }

  /** No position below `n` is listed exactly when none of them is set. */
  lemma {:induction false} SetPositionsEmpty(lvl: Level, n: nat)
    requires n <= |SingularLevels|
    ensures |SetPositions(lvl, n)| == 0 <==> forall k :: 0 <= k < n ==> !IsSet(lvl, k)
  {
    if n > 0 {
      SetPositionsEmpty(lvl, n - 1);
      assert |SetPositions(lvl, n)| == |SetPositions(lvl, n - 1)| + (if IsSet(lvl, n - 1) then 1 else 0);
    }
  }

  /** "No position is set", written out position by position. */
  lemma NoneSetPositions(lvl: Level)
    ensures (forall k :: 0 <= k < |SingularLevels| ==> !IsSet(lvl, k)) <==>
            !IsSet(lvl, 0) && !IsSet(lvl, 1) && !IsSet(lvl, 2) && !IsSet(lvl, 3) && !IsSet(lvl, 4) &&
            !IsSet(lvl, 5) && !IsSet(lvl, 6) && !IsSet(lvl, 7) && !IsSet(lvl, 8)
  {
  }

  /** No singular bit is set exactly when the nine low bits are all clear. */
  lemma NoneSet(lvl: Level)
    ensures (!IsSet(lvl, 0) && !IsSet(lvl, 1) && !IsSet(lvl, 2) && !IsSet(lvl, 3) && !IsSet(lvl, 4) &&
             !IsSet(lvl, 5) && !IsSet(lvl, 6) && !IsSet(lvl, 7) && !IsSet(lvl, 8)) <==>
            lvl & SingularBits == Undefined
  {
    IsSetBits(lvl);
    NoneSetBits(lvl);
  }

  /** IsSet at each position tests the bit of the singular level there. */
  lemma IsSetBits(lvl: Level)
    ensures IsSet(lvl, 0) <==> lvl & 0x001 != 0
    ensures IsSet(lvl, 1) <==> lvl & 0x002 != 0
    ensures IsSet(lvl, 2) <==> lvl & 0x004 != 0
    ensures IsSet(lvl, 3) <==> lvl & 0x008 != 0
    ensures IsSet(lvl, 4) <==> lvl & 0x010 != 0
    ensures IsSet(lvl, 5) <==> lvl & 0x020 != 0
    ensures IsSet(lvl, 6) <==> lvl & 0x040 != 0
    ensures IsSet(lvl, 7) <==> lvl & 0x080 != 0
    ensures IsSet(lvl, 8) <==> lvl & 0x100 != 0
  {
    assert IsSet(lvl, 0) <==> lvl & 0x001 != 0 by { assert SingularLevels[0] == 0x001; }
    assert IsSet(lvl, 1) <==> lvl & 0x002 != 0 by { assert SingularLevels[1] == 0x002; }
    assert IsSet(lvl, 2) <==> lvl & 0x004 != 0 by { assert SingularLevels[2] == 0x004; }
    assert IsSet(lvl, 3) <==> lvl & 0x008 != 0 by { assert SingularLevels[3] == 0x008; }
    assert IsSet(lvl, 4) <==> lvl & 0x010 != 0 by { assert SingularLevels[4] == 0x010; }
    assert IsSet(lvl, 5) <==> lvl & 0x020 != 0 by { assert SingularLevels[5] == 0x020; }
    assert IsSet(lvl, 6) <==> lvl & 0x040 != 0 by { assert SingularLevels[6] == 0x040; }
    assert IsSet(lvl, 7) <==> lvl & 0x080 != 0 by { assert SingularLevels[7] == 0x080; }
    assert IsSet(lvl, 8) <==> lvl & 0x100 != 0 by { assert SingularLevels[8] == 0x100; }
  }

  /** The same, on the bits themselves. */
  lemma NoneSetBits(lvl: Level)
    ensures (lvl & 0x001 == 0 && lvl & 0x002 == 0 && lvl & 0x004 == 0 && lvl & 0x008 == 0 &&
             lvl & 0x010 == 0 && lvl & 0x020 == 0 && lvl & 0x040 == 0 && lvl & 0x080 == 0 &&
             lvl & 0x100 == 0) <==> lvl & 0x1FF == 0
  {
  }

  /** No singular bit of `lvl` is listed exactly when its nine low bits are clear. */
  lemma NoPositionsSet(lvl: Level)
    ensures |SetPositions(lvl, |SingularLevels|)| == 0 <==> lvl & SingularBits == Undefined
  {
    SetPositionsEmpty(lvl, |SingularLevels|);
    NoneSetPositions(lvl);
    NoneSet(lvl);
  }

  /** When some singular bit is set, the text is the joined names, and it is
      not "Undefined": splitting it gives names of singular levels only. */
  lemma FormatJoined(lvl: Level)
    requires |SetPositions(lvl, |SingularLevels|)| > 0
    ensures Split(Format(lvl)) == Names(SetPositions(lvl, |SingularLevels|))
    ensures Format(lvl) != UndefinedName
  {
    var ks := SetPositions(lvl, |SingularLevels|);
    var names := Names(ks);
    NamesShape(ks);
    SplitJoin(names);
    NamesAt(ks, 0);
    SingularLevelStringUndefined(SingularLevels[ks[0]]);
    SplitWhole(UndefinedName);
  }

  /** Format is "Undefined" exactly when none of the nine singular bits is set;
      otherwise splitting it at '|' gives back the names of the set bits in
      level order, so the names are separated by single '|' with none leading
      or trailing. */
  lemma FormatShape(lvl: Level)
    ensures Format(lvl) == UndefinedName <==> lvl & SingularBits == Undefined
    ensures lvl & SingularBits != Undefined ==>
              Split(Format(lvl)) == Names(SetPositions(lvl, |SingularLevels|))
  {
    NoPositionsSet(lvl);
    if |SetPositions(lvl, |SingularLevels|)| > 0 {
      FormatJoined(lvl);
    }
  }

  /** Whether a singular bit is set does not depend on the bits above SingularBits. */
  lemma IsSetIgnoresHighBits(lvl: Level, k: nat)
    requires k < |SingularLevels|
    ensures IsSet(lvl, k) == IsSet(lvl & SingularBits, k)
  {
  }

  /** Bits outside the nine singular flags do not change which positions are set. */
  lemma {:induction false} SetPositionsIgnoreHighBits(lvl: Level, n: nat)
    requires n <= |SingularLevels|
    ensures SetPositions(lvl, n) == SetPositions(lvl & SingularBits, n)
  {
    if n > 0 {
      SetPositionsIgnoreHighBits(lvl, n - 1);
      IsSetIgnoresHighBits(lvl, n - 1);
    }
  }

  /** Bits outside the nine singular flags do not change the text. */
  lemma FormatIgnoresHighBits(lvl: Level)
    ensures Format(lvl) == Format(lvl & SingularBits)
  {
    SetPositionsIgnoreHighBits(lvl, |SingularLevels|);
  }

  /** Two singular levels share a bit only when they are the same level. */
  lemma SingularLevelsDisjoint(x: Level, y: Level)
    requires IsSingular(x) && IsSingular(y)
    ensures x & y != Undefined <==> x == y
  {
  }

  /** A mask has the bit of a singular level set exactly when the two share a bit. */
  lemma IsSetSingular(mask: Level, lvl: Level)
    requires IsSingular(lvl)
    ensures 0 <= Ordinal(lvl) < |SingularLevels|
    ensures IsSet(mask, Ordinal(lvl)) <==> mask & lvl != Undefined
  {
    OrdinalPosition(lvl);
    IsSetBits(mask);
    if lvl == Unknown {
    } else if lvl == Trace {
    } else if lvl == Debug {
    } else if lvl == Information {
    } else if lvl == Warning {
    } else if lvl == Error {
    } else if lvl == Critical {
    } else if lvl == Fatal {
    } else {
      assert lvl == Panic;
    }
  }

  /** The j-th singular level has the k-th bit set only for j == k. */
  lemma SingularBitsDisjoint(j: nat, k: nat)
    requires j < |SingularLevels| && k < |SingularLevels|
    ensures IsSet(SingularLevels[j], k) <==> j == k
  {
    SingularLevelsDisjoint(SingularLevels[j], SingularLevels[k]);
    SingularLevelsOrdinals();
  }

  /** In a singular level exactly its own position is set. */
  lemma {:induction false} SetPositionsSingular(j: nat, n: nat)
    requires j < |SingularLevels| && n <= |SingularLevels|
    ensures SetPositions(SingularLevels[j], n) == if j < n then [j] else []
  {
    if n > 0 {
      SetPositionsSingular(j, n - 1);
      SingularBitsDisjoint(j, n - 1);
    }
  }

  /** A singular level renders as exactly its own name, without any '|'. */
  lemma FormatSingular(lvl: Level)
    requires IsSingular(lvl)
    ensures Format(lvl) == SingularLevelString(lvl)
    ensures Separator !in Format(lvl)
  {
    OrdinalPosition(lvl);
    var j: nat := Ordinal(lvl);
    SetPositionsSingular(j, |SingularLevels|);
    assert Names([j]) == [SingularLevelString(lvl)];
  }

  /** Among the singular bits, Trace|Panic has exactly those of Trace and Panic. */
  lemma TracePanicBits()
    ensures !IsSet(Trace | Panic, 0) && IsSet(Trace | Panic, 1) && !IsSet(Trace | Panic, 2)
    ensures !IsSet(Trace | Panic, 3) && !IsSet(Trace | Panic, 4) && !IsSet(Trace | Panic, 5)
    ensures !IsSet(Trace | Panic, 6) && !IsSet(Trace | Panic, 7) && IsSet(Trace | Panic, 8)
  {
  }

  /** Trace|Panic lists the positions of Trace and Panic. */
  lemma TracePanicPositions()
    ensures SetPositions(Trace | Panic, |SingularLevels|) == [1, 8]
  {
    var lvl := Trace | Panic;
    TracePanicBits();
    assert SetPositions(lvl, 1) == [];
    assert SetPositions(lvl, 2) == [1];
    assert SetPositions(lvl, 3) == [1];
    assert SetPositions(lvl, 4) == [1];
    assert SetPositions(lvl, 5) == [1];
    assert SetPositions(lvl, 6) == [1];
    assert SetPositions(lvl, 7) == [1];
    assert SetPositions(lvl, 8) == [1];
  }

  /** A combined mask: Trace|Panic renders as "Trace|Panic". */
  lemma FormatTracePanic()
    ensures Format(Trace | Panic) == "Trace|Panic"
  {
    TracePanicPositions();
    assert [1, 8] == [1] + [8];
    NamesStep([1], 8);
    var first := Names([1]);
    assert |first| == 1 && first[0] == "Trace";
    JoinStep(first, "Panic");
    assert Format(Trace | Panic) == "Trace" + [Separator] + "Panic";
  }

  // ---------------------------------------------------------------------------
  // Parsing: ParseLevel
  // ---------------------------------------------------------------------------

  const TraceAliases: set<string> := {"trc", "trce", "trac", "trace"}
  const DebugAliases: set<string> := {"dbg", "debu", "dbug", "debg", "debug"}
  const InformationAliases: set<string> := {"inf", "info", "information"}
  const WarningAliases: set<string> := {"warn", "warning"}
  const ErrorAliases: set<string> := {"err", "erro", "error", "fail"}
  const CriticalAliases: set<string> := {"crit", "critical"}
  const FatalAliases: set<string> := {"fata", "fatal"}
  const PanicAliases: set<string> := {"panic"}

  const AllAliases: set<string> :=
    TraceAliases + DebugAliases + InformationAliases + WarningAliases +
    ErrorAliases + CriticalAliases + FatalAliases + PanicAliases

  /** The level a name denotes, ignoring case; any other text is Unknown. */
  function ParseLevel(s: string): (lvl: Level)
    ensures IsSingular(lvl) && lvl != Undefined
  {
    var t := ToLower(s);
    if t in TraceAliases then Trace
    else if t in DebugAliases then Debug
    else if t in InformationAliases then Information
    else if t in WarningAliases then Warning
    else if t in ErrorAliases then Error
    else if t in CriticalAliases then Critical
    else if t in FatalAliases then Fatal
    else if t in PanicAliases then Panic
    else Unknown
  }

  /** Parsing does not depend on case. */
  lemma ParseLevelIgnoresCase(s: string)
    ensures ParseLevel(s) == ParseLevel(ToLower(s))
  {
    ToLowerIdempotent(s);
  }

  /** Every alias parses to its own level, whatever its case. */
  lemma ParseLevelAliases(s: string)
    ensures ToLower(s) in TraceAliases ==> ParseLevel(s) == Trace
    ensures ToLower(s) in DebugAliases ==> ParseLevel(s) == Debug
    ensures ToLower(s) in InformationAliases ==> ParseLevel(s) == Information
    ensures ToLower(s) in WarningAliases ==> ParseLevel(s) == Warning
    ensures ToLower(s) in ErrorAliases ==> ParseLevel(s) == Error
    ensures ToLower(s) in CriticalAliases ==> ParseLevel(s) == Critical
    ensures ToLower(s) in FatalAliases ==> ParseLevel(s) == Fatal
    ensures ToLower(s) in PanicAliases ==> ParseLevel(s) == Panic
  {
  }

  /** A text parses to Unknown exactly when it is no alias; so "unknown"
      itself falls through to Unknown. */
  lemma ParseLevelUnknown(s: string)
    ensures ParseLevel(s) == Unknown <==> ToLower(s) !in AllAliases
  {
  }

  /** "fail" is one of the aliases of Error. */
  lemma ParseLevelFail()
    ensures ParseLevel("fail") == Error
  {
    assert ToLower("fail") == "fail";
  }

  /** "dbug" is one of the aliases of Debug. */
  lemma ParseLevelDbug()
    ensures ParseLevel("dbug") == Debug
  {
    assert ToLower("dbug") == "dbug";
  }

  /** Upper-case "WARN" is lower-cased to the Warning alias "warn". */
  lemma ParseLevelUpperWarn()
    ensures ParseLevel("WARN") == Warning
  {
    assert ToLower("WARN") == "warn";
  }

  /** "verbose" is no alias, so it is Unknown. */
  lemma ParseLevelVerbose()
    ensures ParseLevel("verbose") == Unknown
  {
    assert ToLower("verbose") == "verbose";
  }

  lemma ParseUnknownName()
    ensures ParseLevel(SingularLevelString(Unknown)) == Unknown
  {
    assert ToLower("Unknown") == "unknown";
  }

  lemma ParseTraceName()
    ensures ParseLevel(SingularLevelString(Trace)) == Trace
  {
    assert ToLower("Trace") == "trace";
  }

  lemma ParseDebugName()
    ensures ParseLevel(SingularLevelString(Debug)) == Debug
  {
    assert ToLower("Debug") == "debug";
  }

  lemma ParseInformationName()
    ensures ParseLevel(SingularLevelString(Information)) == Information
  {
    assert ToLower("Information") == "information";
  }

  lemma ParseWarningName()
    ensures ParseLevel(SingularLevelString(Warning)) == Warning
  {
    assert ToLower("Warning") == "warning";
  }

  lemma ParseErrorName()
    ensures ParseLevel(SingularLevelString(Error)) == Error
  {
    assert ToLower("Error") == "error";
  }

  lemma ParseCriticalName()
    ensures ParseLevel(SingularLevelString(Critical)) == Critical
  {
    assert ToLower("Critical") == "critical";
  }

  lemma ParseFatalName()
    ensures ParseLevel(SingularLevelString(Fatal)) == Fatal
  {
    assert ToLower("Fatal") == "fatal";
  }

  lemma ParsePanicName()
    ensures ParseLevel(SingularLevelString(Panic)) == Panic
  {
    assert ToLower("Panic") == "panic";
  }

  /** The name of every singular level parses back to that level. */
  lemma ParseSingularLevelString(lvl: Level)
    requires IsSingular(lvl)
    ensures ParseLevel(SingularLevelString(lvl)) == lvl
  {
    if lvl == Unknown {
      ParseUnknownName();
    } else if lvl == Trace {
      ParseTraceName();
    } else if lvl == Debug {
      ParseDebugName();
    } else if lvl == Information {
      ParseInformationName();
    } else if lvl == Warning {
      ParseWarningName();
    } else if lvl == Error {
      ParseErrorName();
    } else if lvl == Critical {
      ParseCriticalName();
    } else if lvl == Fatal {
      ParseFatalName();
    } else {
      ParsePanicName();
    }
  }

  /** Rendering a singular level and parsing the text gives the level back. */
  lemma ParseFormatRoundTrip(lvl: Level)
    requires IsSingular(lvl)
    ensures ParseLevel(Format(lvl)) == lvl
  {
    FormatSingular(lvl);
    ParseSingularLevelString(lvl);
  }
}
