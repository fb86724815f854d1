/** The value parsers behind the command-line flags (cmd/cwalk/cmd/root.go):
    inode types, string and number lists, durations, sizes and permission
    masks, each an imperative scan proved against a function that says what
    it computes. */
module Cli {
  import opened Wrappers
  import opened Text
  import opened Fs
  import opened StatFilters

  /** Why a flag value is refused. The texts of Go's error messages are not
      modelled; the constructor and its argument say which check failed. */
  datatype ParseError =
    | BadNumber(text: string)
    | BadDurationFormat(text: string)
    | UnknownDurationUnit(unit: string)
    | DurationOutOfRange
    | UnknownSizeUnit(unit: string)
    | BadPermFormat(part: string)
    | BadPermWho(who: char)
    | BadPermOperator(op: char)

  // ---------------------------------------------------------------------------
  // parseInodeTypes
  // ---------------------------------------------------------------------------

  /** The map parseInodeTypes builds from the pieces `parts`: each trimmed
      piece set to true, in order. */
  function InodeTypesOf(parts: seq<string>): map<string, bool>
  {
    if parts == [] then map[]
    else InodeTypesOf(parts[..|parts| - 1])[TrimSpace(parts[|parts| - 1]) := true]
  }

  /** parseInodeTypes. */
  method ParseInodeTypes(s: string) returns (types: map<string, bool>)
    ensures types == InodeTypesOf(Split(s, ','))
  {
    var parts := Split(s, ',');
    types := map[];
    var i := 0;
    while i < |parts|
      invariant 0 <= i <= |parts|
      invariant types == InodeTypesOf(parts[..i])
    {
      InodeTypesSnoc(parts, i);
      types := types[TrimSpace(parts[i]) := true];
      i := i + 1;
    }
    assert parts[..i] == parts;
  }

  lemma InodeTypesSnoc(parts: seq<string>, i: nat)
    requires i < |parts|
    ensures InodeTypesOf(parts[..i + 1]) == InodeTypesOf(parts[..i])[TrimSpace(parts[i]) := true]
  {
    assert parts[..i + 1][..i] == parts[..i];
  }

  /** Every piece of `parts`, trimmed. */
  function TrimmedPieces(parts: seq<string>): (r: seq<string>)
    ensures |r| == |parts|
    ensures forall j :: 0 <= j < |parts| ==> r[j] == TrimSpace(parts[j])
  {
    if parts == [] then []
    else TrimmedPieces(parts[..|parts| - 1]) + [TrimSpace(parts[|parts| - 1])]
  }

  /** The keys are exactly the trimmed pieces, and every one maps to true. */
  lemma {:induction false} InodeTypesKeys(parts: seq<string>)
    ensures InodeTypesOf(parts).Keys == set k | k in TrimmedPieces(parts)
    ensures forall k :: k in InodeTypesOf(parts) ==> InodeTypesOf(parts)[k]
    decreases |parts|
  {
    if parts != [] {
      InodeTypesKeys(parts[..|parts| - 1]);
    }
  }

  /** The empty flag value gives the one key "". */
  lemma InodeTypesOfEmpty()
    ensures InodeTypesOf(Split("", ',')) == map["" := true]
  {
    assert Split("", ',') == [""];
    assert [""][..0] == [];
  }

  /** A Types map built by parseInodeTypes admits an entry exactly when the
      entry's type name is one of the trimmed pieces of the flag. */
  lemma TypeFlagSelects(s: string, fi: FileInfo, now: int)
    ensures Matches(NoFilters.(types := InodeTypesOf(Split(s, ','))), fi, now) <==>
      GetFileType(fi) in TrimmedPieces(Split(s, ','))
  {
    var parts := Split(s, ',');
    var types := InodeTypesOf(parts);
    InodeTypesKeys(parts);
    assert TrimmedPieces(parts)[0] in types;
    OnlyTypesSet(types, fi, now);
  }

  // ---------------------------------------------------------------------------
  // parseStringList
  // ---------------------------------------------------------------------------

  /** The trimmed, non-empty pieces of `parts`, in order. */
  function NonEmptyTrimmed(parts: seq<string>): (items: seq<string>)
    ensures |items| <= |parts|
  {
    if parts == [] then []
    else
      var t := TrimSpace(parts[|parts| - 1]);
      if t == "" then NonEmptyTrimmed(parts[..|parts| - 1])
      else NonEmptyTrimmed(parts[..|parts| - 1]) + [t]
  }

  /** parseStringList: the trimmed, non-empty items between commas. */
  method ParseStringList(s: string) returns (result: seq<string>)
    ensures result == NonEmptyTrimmed(Split(s, ','))
  {
    var parts := Split(s, ',');
    result := [];
    var i := 0;
    while i < |parts|
      invariant 0 <= i <= |parts|
      invariant result == NonEmptyTrimmed(parts[..i])
    {
      NonEmptyTrimmedSnoc(parts, i);
      var trimmed := TrimSpace(parts[i]);
      if trimmed != "" {
        result := result + [trimmed];
      }
      i := i + 1;
    }
    assert parts[..i] == parts;
  }

  lemma NonEmptyTrimmedSnoc(parts: seq<string>, i: nat)
    requires i < |parts|
    ensures NonEmptyTrimmed(parts[..i + 1]) ==
      if TrimSpace(parts[i]) == "" then NonEmptyTrimmed(parts[..i]) else NonEmptyTrimmed(parts[..i]) + [TrimSpace(parts[i])]
  {
    assert parts[..i + 1][..i] == parts[..i];
  }

  /** An item parseStringList can produce: non-empty, without a comma and
      without white space at either end. */
  predicate CleanItem(x: string)
  {
    x != "" && ',' !in x && !IsSpace(x[0]) && !IsSpace(x[|x| - 1])
  }

  /** Every item of the list is clean. */
  lemma {:induction false} NonEmptyTrimmedClean(parts: seq<string>)
    requires forall j :: 0 <= j < |parts| ==> ',' !in parts[j]
    ensures forall j :: 0 <= j < |NonEmptyTrimmed(parts)| ==> CleanItem(NonEmptyTrimmed(parts)[j])
    decreases |parts|
  {
    if parts != [] {
      var init := parts[..|parts| - 1];
      NonEmptyTrimmedClean(init);
      var t := TrimSpace(parts[|parts| - 1]);
      TrimKeepsAbsent(parts[|parts| - 1], ',');
      if t != "" {
        assert CleanItem(t);
        assert NonEmptyTrimmed(parts) == NonEmptyTrimmed(init) + [t];
      }
    }
  }

  /** Trimming only removes characters. */
  lemma TrimKeepsAbsent(s: string, c: char)
    requires c !in s
    ensures c !in TrimSpace(s)
  {
    var l := TrimLeft(s);
    var t := TrimRight(l);
    forall k | 0 <= k < |t|
      ensures t[k] != c
    {
      assert t[k] == l[k] == s[|s| - |l| + k];
    }
  }

  /** The items of a flag value are clean and each is a piece of it. */
  lemma StringListItems(s: string)
    ensures forall j :: 0 <= j < |NonEmptyTrimmed(Split(s, ','))| ==> CleanItem(NonEmptyTrimmed(Split(s, ','))[j])
  {
    SplitPiecesLackSeparator(s, ',');
    NonEmptyTrimmedClean(Split(s, ','));
  }

  lemma TrimClean(x: string)
    requires CleanItem(x)
    ensures TrimSpace(x) == x
  {
    assert TrimLeft(x) == x;
  }

  lemma {:induction false} NonEmptyTrimmedOfClean(items: seq<string>)
    requires forall j :: 0 <= j < |items| ==> CleanItem(items[j])
    ensures NonEmptyTrimmed(items) == items
    decreases |items|
  {
    if items != [] {
      NonEmptyTrimmedOfClean(items[..|items| - 1]);
      TrimClean(items[|items| - 1]);
      assert items[..|items| - 1] + [items[|items| - 1]] == items;
    }
  }

  /** Joining clean items with commas and parsing the result gives the items
      back. */
  lemma StringListRoundTrip(items: seq<string>)
    requires forall j :: 0 <= j < |items| ==> CleanItem(items[j])
    ensures NonEmptyTrimmed(Split(Join(items, ","), ',')) == items
  {
    if items == [] {
      assert Split("", ',') == [""];
      assert NonEmptyTrimmed([""]) == NonEmptyTrimmed([]);
    } else {
      JoinThenSplit(items, ',');
      NonEmptyTrimmedOfClean(items);
    }
  }

  // ---------------------------------------------------------------------------
  // parseUintList
  // ---------------------------------------------------------------------------

  /** strconv.ParseUint(item, 10, 32): a non-empty run of decimal digits whose
      value is below 2^32. */
  function ParseUint32(item: string): Result<uint32, ParseError>
  {
    if item != "" && AllDigits(item) && DecimalValue(item) < 0x1_0000_0000 then Ok(DecimalValue(item))
    else Err(BadNumber(item))
  }

  /** The decimal numeral of a uint32 parses back to it. */
  lemma ParseUint32OfNumeral(n: uint32)
    ensures ParseUint32(DecimalString(n)) == Ok(n)
  {
  }

  /** What parseUintList returns for the pieces `parts`: the first piece that
      does not parse stops it with an error; empty pieces are skipped. */
  function UintListOf(parts: seq<string>): Result<seq<uint32>, ParseError>
  {
    if parts == [] then Ok([])
    else
      match UintListOf(parts[..|parts| - 1])
      case Err(e) => Err(e)
      case Ok(vs) =>
        var item := TrimSpace(parts[|parts| - 1]);
        if item == "" then Ok(vs)
        else
          match ParseUint32(item)
          case Err(e) => Err(e)
          case Ok(v) => Ok(vs + [v])
  }

  /** parseUintList. */
  method ParseUintList(s: string) returns (r: Result<seq<uint32>, ParseError>)
    ensures r == UintListOf(Split(s, ','))
  {
    var parts := Split(s, ',');
    var result := [];
    var i := 0;
    while i < |parts|
      invariant 0 <= i <= |parts|
      invariant UintListOf(parts[..i]) == Ok(result)
    {
      assert parts[..i + 1][..i] == parts[..i];
      var item := TrimSpace(parts[i]);
      if item != "" {
        var val := ParseUint32(item);
        if val.Err? {
          PrefixErrorStays(parts, i + 1);
          return Err(val.error);
        }
        result := result + [val.value];
      }
      i := i + 1;
    }
    assert parts[..i] == parts;
    r := Ok(result);
  }

  /** Once a prefix of the pieces fails, the whole list fails the same way. */
  lemma {:induction false} PrefixErrorStays(parts: seq<string>, k: nat)
    requires k <= |parts| && UintListOf(parts[..k]).Err?
    ensures UintListOf(parts) == UintListOf(parts[..k])
    decreases |parts| - k
  {
    if k < |parts| {
      assert parts[..k + 1][..k] == parts[..k];
      PrefixErrorStays(parts, k + 1);
    } else {
      assert parts[..k] == parts;
    }
  }

  /** Every item is a decimal below 2^32. */
  predicate Uint32Items(items: seq<string>)
  {
    forall j :: 0 <= j < |items| ==> ParseUint32(items[j]).Ok?
  }

  lemma Uint32ItemsSnoc(prev: seq<string>, t: string)
    ensures Uint32Items(prev + [t]) <==> Uint32Items(prev) && ParseUint32(t).Ok?
  {
    var items := prev + [t];
    assert items[|prev|] == t;
    assert forall j :: 0 <= j < |prev| ==> items[j] == prev[j];
  }

  /** parseUintList succeeds exactly when every item parseStringList would
      return is a decimal below 2^32. */
  lemma {:induction false} UintListOkExactly(parts: seq<string>)
    ensures UintListOf(parts).Ok? <==> Uint32Items(NonEmptyTrimmed(parts))
    decreases |parts|
  {
    if parts != [] {
      var init := parts[..|parts| - 1];
      UintListOkExactly(init);
      var t := TrimSpace(parts[|parts| - 1]);
      if t != "" {
        Uint32ItemsSnoc(NonEmptyTrimmed(init), t);
      }
    }
  }

  /** When it succeeds, it returns the values of those items in order. */
  lemma {:induction false} UintListValues(parts: seq<string>)
    requires UintListOf(parts).Ok?
    ensures |UintListOf(parts).value| == |NonEmptyTrimmed(parts)|
    ensures forall j :: 0 <= j < |NonEmptyTrimmed(parts)| ==>
      ParseUint32(NonEmptyTrimmed(parts)[j]) == Ok(UintListOf(parts).value[j])
    decreases |parts|
  {
    if parts != [] {
      var init := parts[..|parts| - 1];
      UintListValues(init);
      var prev := NonEmptyTrimmed(init);
      var vs := UintListOf(init).value;
      var t := TrimSpace(parts[|parts| - 1]);
      if t != "" {
        var v := ParseUint32(t).value;
        assert UintListOf(parts).value == vs + [v];
        assert NonEmptyTrimmed(parts) == prev + [t];
      }
    }
  }

  lemma DigitsHaveNoComma(x: string)
    requires AllDigits(x)
    ensures ',' !in x
  {
    forall k | 0 <= k < |x| ensures x[k] != ',' {
      assert IsDigit(x[k]);
    }
  }

  /** The decimal numerals of `vs`. */
  function Numerals(vs: seq<uint32>): (items: seq<string>)
    ensures |items| == |vs|
    ensures forall j :: 0 <= j < |vs| ==> items[j] == DecimalString(vs[j])
  {
    seq(|vs|, j requires 0 <= j < |vs| => DecimalString(vs[j]))
  }

  lemma NumeralsClean(vs: seq<uint32>)
    ensures forall j :: 0 <= j < |vs| ==> CleanItem(Numerals(vs)[j]) && ParseUint32(Numerals(vs)[j]) == Ok(vs[j])
  {
    forall j | 0 <= j < |vs|
      ensures CleanItem(Numerals(vs)[j]) && ParseUint32(Numerals(vs)[j]) == Ok(vs[j])
    {
      var x := DecimalString(vs[j]);
      assert IsDigit(x[0]) && IsDigit(x[|x| - 1]);
      DigitsHaveNoComma(x);
      ParseUint32OfNumeral(vs[j]);
    }
  }

  /** Numerals joined by commas parse back to the numbers. */
  lemma UintListRoundTrip(vs: seq<uint32>)
    ensures UintListOf(Split(Join(Numerals(vs), ","), ',')) == Ok(vs)
  {
    NumeralsClean(vs);
    CleanItemsRoundTrip(Numerals(vs), vs);
  }

  /** Clean items that parse to `vs`, joined by commas, parse back to `vs`. */
  lemma CleanItemsRoundTrip(items: seq<string>, vs: seq<uint32>)
    requires |items| == |vs|
    requires forall j :: 0 <= j < |vs| ==> CleanItem(items[j]) && ParseUint32(items[j]) == Ok(vs[j])
    ensures UintListOf(Split(Join(items, ","), ',')) == Ok(vs)
  {
    StringListRoundTrip(items);
    var parts := Split(Join(items, ","), ',');
    assert NonEmptyTrimmed(parts) == items;
    UintListOkExactly(parts);
    assert Uint32Items(items);
    UintListValues(parts);
    var ws := UintListOf(parts).value;
    assert |ws| == |vs|;
    forall j | 0 <= j < |vs|
      ensures ws[j] == vs[j]
    {
      assert Ok(ws[j]) == ParseUint32(items[j]);
    }
    assert ws == vs;
  }

  // ---------------------------------------------------------------------------
  // Go integers and time.ParseDuration
  // ---------------------------------------------------------------------------

  const MaxInt64: int := 0x7FFF_FFFF_FFFF_FFFF
  const MinInt64: int := -0x8000_0000_0000_0000
  const TwoTo64: int := 0x1_0000_0000_0000_0000

  /** An int64 result: the value reduced into the int64 range modulo 2^64, as
      Go's int64 multiplication wraps. */
  function Wrap64(x: int): (r: int)
    ensures MinInt64 <= r <= MaxInt64
  {
    var m := x % TwoTo64;
    if m > MaxInt64 then m - TwoTo64 else m
  }

  /** Wrapping changes nothing within the int64 range. */
  lemma Wrap64InRange(x: int)
    requires MinInt64 <= x <= MaxInt64
    ensures Wrap64(x) == x
  {
    if x < 0 {
      assert x % TwoTo64 == x + TwoTo64;
    }
  }

  /** strconv.ParseInt(text, 10, 64): an optional sign, then a non-empty run of
      decimal digits, with the value in the int64 range. */
  function ParseInt64(text: string): Result<int, ParseError>
  {
    var signed := |text| > 0 && (text[0] == '+' || text[0] == '-');
    var digits := if signed then text[1..] else text;
    if digits == [] || !AllDigits(digits) then Err(BadNumber(text))
    else
      var v: int := if signed && text[0] == '-' then -(DecimalValue(digits) as int) else DecimalValue(digits);
      if MinInt64 <= v <= MaxInt64 then Ok(v) else Err(BadNumber(text))
  }

  const Second: nat := 1_000_000_000
  const Minute: nat := 60 * Second
  const Hour: nat := 60 * Minute

  /** time.ParseDuration of the text "<m><u>" that parseDuration formats with
      %d, where `unit` is u in nanoseconds: the magnitude of m times the unit
      may reach 2^63 for a negative m and 2^63 - 1 otherwise, that is, the
      product must be an int64. */
  function GoDuration(m: int, unit: nat): (r: Result<int, ParseError>)
    ensures r.Ok? ==> MinInt64 <= r.value <= MaxInt64
  {
    var v := m * unit;
    if MinInt64 <= v <= MaxInt64 then Ok(v) else Err(DurationOutOfRange)
  }

  // ---------------------------------------------------------------------------
  // parseDuration
  // ---------------------------------------------------------------------------

  /** The length of `t` up to and including its last digit; zero when `t` has
      no digit. */
  function EndOfNumber(t: string): (n: nat)
    ensures n <= |t|
    ensures forall k :: n <= k < |t| ==> !IsDigit(t[k])
    ensures n > 0 ==> IsDigit(t[n - 1])
  {
    if t == [] || IsDigit(t[|t| - 1]) then |t| else EndOfNumber(t[..|t| - 1])
  }

  /** The end of the number is the only position with those properties. */
  lemma {:induction false} EndOfNumberUnique(t: string, n: nat)
    requires n <= |t|
    requires forall k :: n <= k < |t| ==> !IsDigit(t[k])
    requires n > 0 ==> IsDigit(t[n - 1])
    ensures EndOfNumber(t) == n
    decreases |t|
  {
    if n < |t| {
      EndOfNumberUnique(t[..|t| - 1], n);
    }
  }

  /** The units parseDuration knows: the factor it applies to the number and
      the time.ParseDuration unit it formats ("h", "m" or "s") in nanoseconds. */
  datatype DurationUnit = DurationUnit(factor: nat, unit: nat)

  function DurationUnitOf(u: string): (r: Option<DurationUnit>)
    ensures r.Some? ==> |u| == 1 && u[0] in "dwmhsy"
  {
    if u == "d" then Some(DurationUnit(24, Hour))
    else if u == "w" then Some(DurationUnit(24 * 7, Hour))
    else if u == "m" then Some(DurationUnit(1, Minute))
    else if u == "h" then Some(DurationUnit(1, Hour))
    else if u == "s" then Some(DurationUnit(1, Second))
    else if u == "y" then Some(DurationUnit(24 * 365, Hour))
    else None
  }

  /** A duration flag split into its number and its unit. */
  datatype DurationText = DurationText(num: int, u: string, rule: DurationUnit)

  /** The checks of parseDuration before the arithmetic: the trimmed text
      must contain a digit, the text up to the last digit must be an int64 and
      the rest a known unit, in that order. */
  function ReadDuration(s: string): Result<DurationText, ParseError>
  {
    var t := TrimSpace(s);
    var n := EndOfNumber(t);
    if n == 0 then Err(BadDurationFormat(t))
    else
      match ParseInt64(t[..n])
      case Err(e) => Err(e)
      case Ok(num) =>
        match DurationUnitOf(t[n..])
        case None => Err(UnknownDurationUnit(t[n..]))
        case Some(rule) => Ok(DurationText(num, t[n..], rule))
  }

  /** The multiplier as the source computes it: int64 products, each of
      which wraps. */
  function WrappedMultiplier(num: int, u: string): int
  {
    if u == "d" then Wrap64(num * 24)
    else if u == "w" then Wrap64(Wrap64(num * 24) * 7)
    else if u == "y" then Wrap64(Wrap64(num * 24) * 365)
    else num
  }

  /** parseDuration as written: the wrapped multiplier is formatted and
      handed to time.ParseDuration. */
  function DurationAsWritten(s: string): (r: Result<int, ParseError>)
    ensures ReadDuration(s).Err? ==> r == Err(ReadDuration(s).error)
    ensures r.Ok? ==> MinInt64 <= r.value <= MaxInt64
  {
    match ReadDuration(s)
    case Err(e) => Err(e)
    case Ok(d) => GoDuration(WrappedMultiplier(d.num, d.u), d.rule.unit)
  }

  /** parseDuration as intended: the number times the unit's length, refused
      when it does not fit a time.Duration. */
  function Duration(s: string): (r: Result<int, ParseError>)
    ensures ReadDuration(s).Err? ==> r == Err(ReadDuration(s).error)
    ensures r.Ok? ==> MinInt64 <= r.value <= MaxInt64
    ensures ReadDuration(s).Ok? ==> var d := ReadDuration(s).value;
      r.Ok? <==> MinInt64 <= d.num * d.rule.factor * d.rule.unit <= MaxInt64
    ensures r.Ok? ==> var d := ReadDuration(s).value; r.value == d.num * d.rule.factor * d.rule.unit
  {
    match ReadDuration(s)
    case Err(e) => Err(e)
    case Ok(d) => GoDuration(d.num * d.rule.factor, d.rule.unit)
  }

  /** parseDuration: trims, scans back to the last digit, parses the number
      and scales it by the unit. */
  method ParseDuration(s: string) returns (r: Result<int, ParseError>)
    ensures r == Duration(s)
  {
    var t := TrimSpace(s);
    var i := LastDigit(t);
    if i < 0 {
      return Err(BadDurationFormat(t));
    }
    var numPart, unitPart := t[..i + 1], t[i + 1..];
    var num := ParseInt64(numPart);
    if num.Err? {
      return Err(num.error);
    }
    var rule := DurationUnitOf(unitPart);
    if rule.None? {
      return Err(UnknownDurationUnit(unitPart));
    }
    r := GoDuration(num.value * rule.value.factor, rule.value.unit);
  }

  /** The backward scan of parseDuration: the index of the last digit of
      `t`, or -1 when there is none. */
  method LastDigit(t: string) returns (i: int)
    ensures i + 1 == EndOfNumber(t)
  {
    i := |t| - 1;
    while i >= 0 && !IsDigit(t[i])
      invariant -1 <= i < |t|
      invariant forall k :: i < k < |t| ==> !IsDigit(t[k])
    {
      i := i - 1;
    }
    EndOfNumberUnique(t, i + 1);
  }

  /** A digit string is its own trim, as is any text that starts with a digit
      and ends with something other than white space. */
  lemma TrimOfNumberText(t: string)
    requires t != [] && IsDigit(t[0]) && !IsSpace(t[|t| - 1])
    ensures TrimSpace(t) == t
  {
    assert !IsSpace(t[0]);
    assert TrimLeft(t) == t;
    assert TrimRight(t) == t;
  }

  /** A numeral followed by a unit splits into the two at the last digit. */
  lemma NumeralFollowedBy(n: nat, u: string)
    requires u != [] && !IsSpace(u[|u| - 1])
    requires forall k :: 0 <= k < |u| ==> !IsDigit(u[k])
    ensures var d := DecimalString(n); var t := d + u;
      TrimSpace(t) == t && EndOfNumber(t) == |d| && t[..|d|] == d && t[|d|..] == u
  {
    DigitsFollowedBy(DecimalString(n), u);
  }

  lemma DigitsFollowedBy(d: string, u: string)
    requires d != [] && AllDigits(d)
    requires u != [] && !IsSpace(u[|u| - 1])
    requires forall k :: 0 <= k < |u| ==> !IsDigit(u[k])
    ensures var t := d + u;
      TrimSpace(t) == t && EndOfNumber(t) == |d| && t[..|d|] == d && t[|d|..] == u
  {
    var t := d + u;
    assert IsDigit(t[0]) && t[|t| - 1] == u[|u| - 1];
    TrimOfNumberText(t);
    assert forall k :: |d| <= k < |t| ==> t[k] == u[k - |d|];
    assert IsDigit(t[|d| - 1]);
    EndOfNumberUnique(t, |d|);
    assert t[..|d|] == d && t[|d|..] == u;
  }

  lemma ParseInt64OfNumeral(n: nat)
    requires n <= MaxInt64
    ensures ParseInt64(DecimalString(n)) == Ok(n)
  {
    var d := DecimalString(n);
    assert IsDigit(d[0]);
  }

  /** A numeral followed by a known unit is read as that number and unit. */
  lemma ReadNumeralWithUnit(n: nat, u: string)
    requires n <= MaxInt64 && DurationUnitOf(u).Some?
    ensures ReadDuration(DecimalString(n) + u) == Ok(DurationText(n, u, DurationUnitOf(u).value))
  {
    assert !IsDigit(u[0]) && !IsSpace(u[0]);
    NumeralFollowedBy(n, u);
    ParseInt64OfNumeral(n);
  }

  /** Each unit scales the number: n days are n·24 hours, n weeks n·168
      hours, n years n·8760 hours, and m, h, s are minutes, hours and
      seconds; a value beyond a time.Duration is refused. */
  lemma DurationOfNumeral(n: nat, u: string)
    requires n <= MaxInt64 && DurationUnitOf(u).Some?
    ensures var rule := DurationUnitOf(u).value;
      Duration(DecimalString(n) + u) == if n * rule.factor * rule.unit <= MaxInt64 then Ok(n * rule.factor * rule.unit) else Err(DurationOutOfRange)
  {
    var rule := DurationUnitOf(u).value;
    ReadNumeralWithUnit(n, u);
    DurationOfRead(DecimalString(n) + u, DurationText(n, u, rule));
    GoDurationOfNatural(n, rule.factor, rule.unit);
  }

  lemma DurationOfRead(s: string, d: DurationText)
    requires ReadDuration(s) == Ok(d)
    ensures Duration(s) == GoDuration(d.num * d.rule.factor, d.rule.unit)
  {
  }

  lemma GoDurationOfNatural(n: nat, factor: nat, unit: nat)
    ensures GoDuration(n * factor, unit) ==
      if n * factor * unit <= MaxInt64 then Ok(n * factor * unit) else Err(DurationOutOfRange)
  {
    assert n * factor >= 0;
    assert n * factor * unit >= 0;
  }

  /** A text without a digit is refused as malformed; a unit other than d, w,
      m, h, s or y after the last digit is refused as unknown. */
  lemma DurationErrors(s: string)
    ensures var t := TrimSpace(s);
      (forall k :: 0 <= k < |t| ==> !IsDigit(t[k])) ==> Duration(s) == Err(BadDurationFormat(t))
    ensures var t := TrimSpace(s);
      var n := EndOfNumber(t);
      n > 0 && ParseInt64(t[..n]).Ok? && t[n..] !in {"d", "w", "m", "h", "s", "y"} ==>
        Duration(s) == Err(UnknownDurationUnit(t[n..]))
  {
    var t := TrimSpace(s);
    if forall k :: 0 <= k < |t| ==> !IsDigit(t[k]) {
      EndOfNumberUnique(t, 0);
    }
  }

  /** Where the int64 products do not wrap, the source computes the intended
      duration. */
  lemma AsWrittenAgreesWithoutWrap(s: string)
    requires ReadDuration(s).Ok?
    requires var d := ReadDuration(s).value; MinInt64 <= d.num * d.rule.factor <= MaxInt64
    ensures DurationAsWritten(s) == Duration(s)
  {
    var d := ReadDuration(s).value;
    UnitOfRead(s, d);
    NoWrapWithinRange(d.num, d.u, d.rule.factor);
  }

  lemma UnitOfRead(s: string, d: DurationText)
    requires ReadDuration(s) == Ok(d)
    ensures DurationUnitOf(d.u) == Some(d.rule)
    ensures DurationAsWritten(s) == GoDuration(WrappedMultiplier(d.num, d.u), d.rule.unit)
    ensures Duration(s) == GoDuration(d.num * d.rule.factor, d.rule.unit)
  {
  }

  /** Within the int64 range the wrapped products are the exact ones. */
  lemma NoWrapWithinRange(x: int, u: string, factor: nat)
    requires DurationUnitOf(u).Some? && DurationUnitOf(u).value.factor == factor
    requires MinInt64 <= x * factor <= MaxInt64
    ensures WrappedMultiplier(x, u) == x * factor
  {
    if u == "d" {
      Wrap64InRange(x * 24);
    } else if u == "w" {
      ScaleWithin(x, 24, 24 * 7);
      Wrap64InRange(x * 24);
      assert (x * 24) * 7 == x * (24 * 7);
      Wrap64InRange(x * (24 * 7));
    } else if u == "y" {
      ScaleWithin(x, 24, 24 * 365);
      Wrap64InRange(x * 24);
      assert (x * 24) * 365 == x * (24 * 365);
      Wrap64InRange(x * (24 * 365));
    }
  }

  /** A smaller factor keeps a product within the int64 range. */
  lemma ScaleWithin(x: int, a: nat, b: nat)
    requires a <= b && MinInt64 <= x * b <= MaxInt64
    ensures MinInt64 <= x * a <= MaxInt64
  {
    assert x * b - x * a == x * (b - a);
    if x >= 0 {
      assert x * (b - a) >= 0;
      assert x * a >= 0;
    } else {
      assert x * (b - a) <= 0;
      assert x * a <= 0;
    }
  }

  /** The wrap: the numeral of 2^61 + 1 (2305843009213693953) followed by "d"
      asks for 24·(2^61 + 1) hours, and 24·(2^61 + 1) is 24 modulo 2^64, so
      the source accepts it as one day where the intended result is an
      out-of-range error. */
  lemma DurationWrapsAround()
    ensures DurationAsWritten(DecimalString(0x2000_0000_0000_0001) + "d") == Ok(24 * Hour)
    ensures Duration(DecimalString(0x2000_0000_0000_0001) + "d") == Err(DurationOutOfRange)
  {
    var n := 0x2000_0000_0000_0001;
    WrapArithmetic();
    ReadNumeralWithUnit(n, "d");
    DurationOfNumeral(n, "d");
  }

  lemma WrapArithmetic()
    ensures Wrap64(0x2000_0000_0000_0001 * 24) == 24
    ensures 0x2000_0000_0000_0001 * 24 * Hour > MaxInt64
  {
    var x := 0x2000_0000_0000_0001 * 24;
    assert x == 3 * TwoTo64 + 24;
    assert x % TwoTo64 == 24;
  }

  // ---------------------------------------------------------------------------
  // parseSize
  // ---------------------------------------------------------------------------

  predicate NumberChar(c: char)
  {
    IsDigit(c) || c == '.'
  }

  /** The length of the leading run of digits and dots of `t`. */
  function NumberPrefix(t: string): (n: nat)
    ensures n <= |t|
    ensures forall k :: 0 <= k < n ==> NumberChar(t[k])
    ensures n < |t| ==> !NumberChar(t[n])
  {
    if t != [] && NumberChar(t[0]) then 1 + NumberPrefix(t[1..]) else 0
  }

  lemma {:induction false} NumberPrefixUnique(t: string, n: nat)
    requires n <= |t|
    requires forall k :: 0 <= k < n ==> NumberChar(t[k])
    requires n < |t| ==> !NumberChar(t[n])
    ensures NumberPrefix(t) == n
    decreases n
  {
    if n > 0 {
      NumberPrefixUnique(t[1..], n - 1);
    }
  }

  function Pow10(k: nat): (p: nat)
    ensures p >= 1
  {
    if k == 0 then 1 else 10 * Pow10(k - 1)
  }

  /** A decimal number `scaled / 10^decimals`. */
  datatype Decimal = Decimal(scaled: nat, decimals: nat)

  /** The index of the first `c` in `s`. */
  function IndexOf(s: string, c: char): (i: nat)
    requires c in s
    ensures i < |s| && s[i] == c && c !in s[..i]
  {
    if s[0] == c then 0
    else
      var i := 1 + IndexOf(s[1..], c);
      assert s[..i] == [s[0]] + s[1..][..i - 1];
      i
  }

  /** strconv.ParseFloat on a text of digits and dots: it needs at least one
      digit and at most one dot; the value is exact. */
  function ParseDecimal(text: string): Result<Decimal, ParseError>
    requires forall k :: 0 <= k < |text| ==> NumberChar(text[k])
  {
    if '.' !in text then
      if text == "" then Err(BadNumber(text))
      else
        DigitsWithoutDot(text);
        Ok(Decimal(DecimalValue(text), 0))
    else
      var d := IndexOf(text, '.');
      var fraction := text[d + 1..];
      if '.' in fraction || |text| == 1 then Err(BadNumber(text))
      else
        DigitsWithoutDot(text[..d]);
        DigitsWithoutDot(fraction);
        Ok(Decimal(DecimalValue(text[..d] + fraction), |fraction|))
  }

  lemma DigitsWithoutDot(text: string)
    requires forall k :: 0 <= k < |text| ==> NumberChar(text[k])
    requires '.' !in text
    ensures AllDigits(text)
  {
    forall k | 0 <= k < |text| ensures IsDigit(text[k]) {
      assert text[k] in text;
    }
  }

  /** The multipliers of parseSize: powers of 1024. */
  function SizeMultiplier(unit: string): Option<nat>
  {
    if unit == "" || unit == "B" then Some(1)
    else if unit == "K" || unit == "KB" then Some(1024)
    else if unit == "M" || unit == "MB" then Some(1024 * 1024)
    else if unit == "G" || unit == "GB" then Some(1024 * 1024 * 1024)
    else if unit == "T" || unit == "TB" then Some(1024 * 1024 * 1024 * 1024)
    else None
  }

  /** What parseSize returns: the leading digits and dots are the number, the
      trimmed, upper-cased rest the unit; the number is checked first; the
      product is truncated to an integer. */
  function Size(s: string): Result<int, ParseError>
  {
    var t := TrimSpace(s);
    var n := NumberPrefix(t);
    match ParseDecimal(t[..n])
    case Err(e) => Err(e)
    case Ok(d) =>
      var unit := ToUpper(TrimSpace(t[n..]));
      match SizeMultiplier(unit)
      case None => Err(UnknownSizeUnit(unit))
      case Some(m) => Ok(d.scaled * m / Pow10(d.decimals))
  }

  /** parseSize: trims, scans the number forward and scales it by the unit. */
  method ParseSize(s: string) returns (r: Result<int, ParseError>)
    ensures r == Size(s)
  {
    var t := TrimSpace(s);
    var i := NumberEnd(t);
    var numPart := t[..i];
    var unitPart := ToUpper(TrimSpace(t[i..]));
    var num := ParseDecimal(numPart);
    if num.Err? {
      return Err(num.error);
    }
    var multiplier := SizeMultiplier(unitPart);
    if multiplier.None? {
      return Err(UnknownSizeUnit(unitPart));
    }
    r := Ok(num.value.scaled * multiplier.value / Pow10(num.value.decimals));
  }

  /** The forward scan of parseSize over digits and dots. */
  method NumberEnd(t: string) returns (i: nat)
    ensures i == NumberPrefix(t)
  {
    i := 0;
    while i < |t| && (IsDigit(t[i]) || t[i] == '.')
      invariant 0 <= i <= |t|
      invariant forall k :: 0 <= k < i ==> NumberChar(t[k])
    {
      i := i + 1;
    }
    NumberPrefixUnique(t, i);
  }

  /** A number followed by a unit splits into the two where the digits and
      dots end. */
  lemma NumberBeforeUnit(d: string, u: string)
    requires d != [] && IsDigit(d[0]) && forall k :: 0 <= k < |d| ==> NumberChar(d[k])
    requires u == [] || (!NumberChar(u[0]) && !IsSpace(u[|u| - 1]))
    ensures var t := d + u;
      TrimSpace(t) == t && NumberPrefix(t) == |d| && t[..|d|] == d && t[|d|..] == u
  {
    var t := d + u;
    if u == [] {
      assert t == d;
      assert !IsSpace(d[|d| - 1]) by { assert NumberChar(d[|d| - 1]); }
    }
    TrimOfNumberText(t);
    NumberPrefixUnique(t, |d|);
    assert t[..|d|] == d && t[|d|..] == u;
  }

  lemma SizeOfRead(s: string, num: Decimal, m: nat)
    requires var t := TrimSpace(s); var n := NumberPrefix(t);
      ParseDecimal(t[..n]) == Ok(num) && SizeMultiplier(ToUpper(TrimSpace(t[n..]))) == Some(m)
    ensures Size(s) == Ok(num.scaled * m / Pow10(num.decimals))
  {
  }

  lemma ParseDecimalOfNumeral(n: nat)
    ensures ParseDecimal(DecimalString(n)) == Ok(Decimal(n, 0))
  {
    var d := DecimalString(n);
    assert forall k :: 0 <= k < |d| ==> IsDigit(d[k]);
    assert '.' !in d by {
      forall k | 0 <= k < |d| ensures d[k] != '.' {
        assert IsDigit(d[k]);
      }
    }
  }

  /** A whole number followed by a unit, in either case and after optional
      white space, is the number times the unit's power of 1024. */
  lemma SizeOfNumeral(n: nat, u: string)
    requires SizeMultiplier(ToUpper(TrimSpace(u))).Some?
    requires u == [] || (!NumberChar(u[0]) && !IsSpace(u[|u| - 1]))
    ensures Size(DecimalString(n) + u) == Ok(n * SizeMultiplier(ToUpper(TrimSpace(u))).value)
  {
    var d := DecimalString(n);
    var m := SizeMultiplier(ToUpper(TrimSpace(u))).value;
    assert forall k :: 0 <= k < |d| ==> IsDigit(d[k]);
    NumberBeforeUnit(d, u);
    ParseDecimalOfNumeral(n);
    SizeOfRead(d + u, Decimal(n, 0), m);
    assert n * m / 1 == n * m;
  }

  /** The size units: K, M, G and T are successive powers of 1024, B and no
      unit count bytes, and the "B"-suffixed spellings equal the short ones. */
  lemma SizeUnits(unit: string)
    ensures SizeMultiplier("") == SizeMultiplier("B") == Some(1)
    ensures SizeMultiplier("K") == SizeMultiplier("KB") == Some(1024)
    ensures SizeMultiplier("M") == SizeMultiplier("MB") == Some(1024 * 1024)
    ensures SizeMultiplier("G") == SizeMultiplier("GB") == Some(1024 * 1024 * 1024)
    ensures SizeMultiplier("T") == SizeMultiplier("TB") == Some(1024 * 1024 * 1024 * 1024)
    ensures SizeMultiplier(unit).Some? <==> unit in {"", "B", "K", "KB", "M", "MB", "G", "GB", "T", "TB"}
  {
  }

  /** A number with one decimal, such as "1.5G", is scaled exactly and the
      product truncated: "1.5G" is 1610612736. */
  lemma SizeWithOneDecimal(a: nat, b: nat, u: string)
    requires b < 10
    requires SizeMultiplier(ToUpper(TrimSpace(u))).Some?
    requires u == [] || (!NumberChar(u[0]) && !IsSpace(u[|u| - 1]))
    ensures Size(DecimalString(a) + ['.', DigitChar(b)] + u) ==
      Ok((10 * a + b) * SizeMultiplier(ToUpper(TrimSpace(u))).value / 10)
  {
    var w := DecimalString(a);
    var d := w + ['.', DigitChar(b)];
    var m := SizeMultiplier(ToUpper(TrimSpace(u))).value;
    OneDecimalChars(w, b);
    NumberBeforeUnit(d, u);
    ParseDecimalOneDecimal(w, a, b);
    var t := d + u;
    assert TrimSpace(t) == t && NumberPrefix(t) == |d| && t[..|d|] == d && t[|d|..] == u;
    SizeOfRead(t, Decimal(10 * a + b, 1), m);
    assert Pow10(1) == 10;
  }

  /** A numeral, a dot and one digit are all number characters. */
  lemma OneDecimalChars(w: string, b: nat)
    requires b < 10 && w != [] && AllDigits(w)
    ensures '.' !in w
    ensures var d := w + ['.', DigitChar(b)];
      d != [] && IsDigit(d[0]) && forall k :: 0 <= k < |d| ==> NumberChar(d[k])
  {
    forall k | 0 <= k < |w| ensures w[k] != '.' && NumberChar(w[k]) {
      assert IsDigit(w[k]);
    }
    var d := w + ['.', DigitChar(b)];
    forall k | 0 <= k < |d| ensures NumberChar(d[k]) {
      if k < |w| {
        assert d[k] == w[k];
      }
    }
  }

  lemma ParseDecimalOneDecimal(w: string, a: nat, b: nat)
    requires b < 10 && w == DecimalString(a) && '.' !in w
    ensures ParseDecimal(w + ['.', DigitChar(b)]) == Ok(Decimal(10 * a + b, 1))
  {
    var d := w + ['.', DigitChar(b)];
    assert d[..|w|] == w;
    assert d[|w|] == '.';
    assert IndexOf(d, '.') == |w|;
    var fraction := d[|w| + 1..];
    assert fraction == [DigitChar(b)];
    var digits := w + [DigitChar(b)];
    assert d[..|w|] + fraction == digits;
    assert digits[..|digits| - 1] == w;
    assert DecimalValue(digits) == DecimalValue(w) * 10 + b;
  }

  /** A text that does not start with a digit or a dot has no number and is
      refused; so is a number followed by an unknown unit. */
  lemma SizeErrors(s: string)
    ensures var t := TrimSpace(s);
      (t == [] || !NumberChar(t[0])) ==> Size(s) == Err(BadNumber(""))
    ensures var t := TrimSpace(s); var n := NumberPrefix(t);
      ParseDecimal(t[..n]).Ok? && SizeMultiplier(ToUpper(TrimSpace(t[n..]))).None? ==>
        Size(s) == Err(UnknownSizeUnit(ToUpper(TrimSpace(t[n..]))))
  {
    var t := TrimSpace(s);
    if t == [] || !NumberChar(t[0]) {
      NumberPrefixUnique(t, 0);
      assert t[..0] == "";
    }
  }

  // ---------------------------------------------------------------------------
  // parsePerms
  // ---------------------------------------------------------------------------
  // A part's outcome is kept as two things: the error it raises, if any, and
  // the bits it ORs in. The result of the whole list is built from the two
  // only at the end.

  /** The bits r, w and x that `what` mentions: 4, 2 and 1. */
  function WhatBits(what: string): bv32
  {
    (if 'r' in what then 4 else 0) | (if 'w' in what then 2 else 0) | (if 'x' in what then 1 else 0)
  }

  /** The bits for the class letter: shifted to user, group or other, or to
      all three for 'a'. */
  function WhoBits(who: char, bits: bv32): Option<bv32>
  {
    if who == 'u' then Some(bits << 6)
    else if who == 'g' then Some(bits << 3)
    else if who == 'o' then Some(bits)
    else if who == 'a' then Some((bits << 6) | (bits << 3) | bits)
    else None
  }

  /** Why one trimmed part is refused: its length is checked first, then the
      class letter, then the operator. */
  function PartError(part: string): Option<ParseError>
  {
    if |part| < 3 then Some(BadPermFormat(part))
    else if WhoBits(part[0], 0).None? then Some(BadPermWho(part[0]))
    else if part[1] != '+' && part[1] != '-' then Some(BadPermOperator(part[1]))
    else None
  }

  /** The bits one part ORs in (none for a part too short or with an unknown
      class letter); the operator plays no part. */
  function PartBits(part: string): bv32
  {
    if |part| < 3 then 0
    else
      match WhoBits(part[0], WhatBits(part[2..]))
      case Some(bits) => bits
      case None => 0
  }

  /** The error of each trimmed part, in order. */
  function PartErrors(parts: seq<string>): seq<Option<ParseError>>
  {
    seq(|parts|, j requires 0 <= j < |parts| => PartError(TrimSpace(parts[j])))
  }

  /** The bits of each trimmed part, in order. */
  function PartMasks(parts: seq<string>): seq<bv32>
  {
    seq(|parts|, j requires 0 <= j < |parts| => PartBits(TrimSpace(parts[j])))
  }

  /** The first error of a list of outcomes. */
  function FirstError(es: seq<Option<ParseError>>): Option<ParseError>
  {
    if es == [] then None
    else if FirstError(es[..|es| - 1]).Some? then FirstError(es[..|es| - 1])
    else es[|es| - 1]
  }

  /** The OR of a list of masks. */
  function OrAll(ms: seq<bv32>): bv32
  {
    if ms == [] then 0 else OrAll(ms[..|ms| - 1]) | ms[|ms| - 1]
  }

  /** What parsePerms returns for the pieces `parts`: the first refused part's
      error, or else the OR of the parts' bits. */
  function PermsOf(parts: seq<string>): Result<bv32, ParseError>
  {
    var e := FirstError(PartErrors(parts));
    if e.Some? then Err(e.value) else Ok(OrAll(PartMasks(parts)))
  }

  /** parsePerms: the parts' bits ORed together, stopping at the first part
      that is refused. */
  method ParsePerms(s: string) returns (r: Result<bv32, ParseError>)
    ensures r == PermsOf(Split(s, ','))
  {
    r := ParseParts(Split(s, ','));
  }

  /** The loop of parsePerms over the pieces of the flag value. */
  method ParseParts(parts: seq<string>) returns (r: Result<bv32, ParseError>)
    ensures r == PermsOf(parts)
  {
    ghost var es, ms := PartErrors(parts), PartMasks(parts);
    var perms: bv32 := 0;
    var i := 0;
    while i < |parts|
      invariant 0 <= i <= |parts|
      invariant FirstError(es[..i]).None? && OrAll(ms[..i]) == perms
    {
      var part := TrimSpace(parts[i]);
      assert es[i] == PartError(part) && ms[i] == PartBits(part);
      FirstErrorSnoc(es, i);
      OrAllSnoc(ms, i);
      var next := AddPart(perms, part);
      if next.Err? {
        FirstErrorStays(es, i + 1);
        return next;
      }
      perms := next.value;
      i := i + 1;
    }
    assert es[..i] == es && ms[..i] == ms;
    r := Ok(perms);
  }

  /** One iteration of parsePerms on a trimmed part: the length check, the
      bits of r, w and x, the class letter, then the operator. */
  method AddPart(perms: bv32, part: string) returns (r: Result<bv32, ParseError>)
    ensures PartError(part).Some? ==> r == Err(PartError(part).value)
    ensures PartError(part).None? ==> r == Ok(perms | PartBits(part))
  {
    if |part| < 3 {
      return Err(BadPermFormat(part));
    }
    var who, op, what := part[0], part[1], part[2..];
    var bits := ReadBits(what);
    var shifted := ClassBits(who, bits);
    if shifted.None? {
      return Err(BadPermWho(who));
    }
    var result := perms | shifted.value;
    if op != '+' && op != '-' {
      return Err(BadPermOperator(op));
    }
    r := Ok(result);
  }

  /** The switch on the class letter: the bits moved to the user, group or
      other positions, or to all three, and None for any other letter. */
  method ClassBits(who: char, bits: bv32) returns (shifted: Option<bv32>)
    ensures shifted == WhoBits(who, bits)
  {
    if who == 'u' {
      shifted := Some(bits << 6);
    } else if who == 'g' {
      shifted := Some(bits << 3);
    } else if who == 'o' {
      shifted := Some(bits);
    } else if who == 'a' {
      shifted := Some((bits << 6) | (bits << 3) | bits);
    } else {
      shifted := None;
    }
  }

  /** The bits r, w and x of a part, set one test at a time. */
  method ReadBits(what: string) returns (bits: bv32)
    ensures bits == WhatBits(what)
  {
    bits := 0;
    if 'r' in what { bits := bits | 4; }
    if 'w' in what { bits := bits | 2; }
    if 'x' in what { bits := bits | 1; }
  }

  /** One more outcome after an error-free prefix: its error, if any, is the
      first. */
  lemma FirstErrorSnoc(es: seq<Option<ParseError>>, i: nat)
    requires i < |es| && FirstError(es[..i]).None?
    ensures FirstError(es[..i + 1]) == es[i]
  {
    assert es[..i + 1][..i] == es[..i];
  }

  /** One more mask: ORed in. */
  lemma OrAllSnoc(ms: seq<bv32>, i: nat)
    requires i < |ms|
    ensures OrAll(ms[..i + 1]) == OrAll(ms[..i]) | ms[i]
  {
    assert ms[..i + 1][..i] == ms[..i];
  }

  /** Once a prefix of the outcomes holds an error, that is the first one. */
  lemma {:induction false} FirstErrorStays(es: seq<Option<ParseError>>, k: nat)
    requires k <= |es| && FirstError(es[..k]).Some?
    ensures FirstError(es) == FirstError(es[..k])
    decreases |es| - k
  {
    if k < |es| {
      assert es[..k + 1][..k] == es[..k];
      FirstErrorStays(es, k + 1);
    } else {
      assert es[..k] == es;
    }
  }

  /** FirstError finds nothing exactly when there is no error, and otherwise
      the error at a position before which there is none. */
  lemma {:induction false} FirstErrorIsFirst(es: seq<Option<ParseError>>)
    ensures FirstError(es).None? <==> forall j :: 0 <= j < |es| ==> es[j].None?
    ensures FirstError(es).Some? ==>
      exists j :: 0 <= j < |es| && es[j] == FirstError(es) && forall i :: 0 <= i < j ==> es[i].None?
    decreases |es|
  {
    if es != [] {
      var init := es[..|es| - 1];
      FirstErrorIsFirst(init);
      if FirstError(init).Some? {
        var j :| 0 <= j < |init| && init[j] == FirstError(init) && forall i :: 0 <= i < j ==> init[i].None?;
        assert es[j] == FirstError(es);
      } else {
        assert forall j :: 0 <= j < |init| ==> es[j].None?;
      }
    }
  }

  /** The first error of a concatenation is the first of `x`, or else the
      first of `y`. */
  lemma {:induction false} FirstErrorOfAppend(x: seq<Option<ParseError>>, y: seq<Option<ParseError>>)
    ensures FirstError(x + y) == if FirstError(x).Some? then FirstError(x) else FirstError(y)
    decreases |y|
  {
    var xy := x + y;
    if y == [] {
      assert xy == x;
    } else {
      FirstErrorOfAppend(x, y[..|y| - 1]);
      assert xy[..|xy| - 1] == x + y[..|y| - 1];
    }
  }

  lemma OrAssociative(x: bv32, y: bv32, z: bv32)
    ensures (x | y) | z == x | (y | z)
  {
  }

  /** The OR of a concatenation is the OR of the two ORs. */
  lemma {:induction false} OrAllAppend(x: seq<bv32>, y: seq<bv32>)
    ensures OrAll(x + y) == OrAll(x) | OrAll(y)
    decreases |y|
  {
    var xy := x + y;
    if y == [] {
      assert xy == x;
    } else {
      var y' := y[..|y| - 1];
      OrAllAppend(x, y');
      assert xy[..|xy| - 1] == x + y';
      assert xy[|xy| - 1] == y[|y| - 1];
      OrAssociative(OrAll(x), OrAll(y'), y[|y| - 1]);
    }
  }

  /** Masks within the nine permission bits OR to one within them. */
  lemma {:induction false} OrAllWithin(ms: seq<bv32>)
    requires forall j :: 0 <= j < |ms| ==> ms[j] & !0x1FF == 0
    ensures OrAll(ms) & !0x1FF == 0
    decreases |ms|
  {
    if ms != [] {
      OrAllWithin(ms[..|ms| - 1]);
    }
  }

  /** A part is accepted exactly when it has at least three characters, a
      class letter among u, g, o and a, and the operator '+' or '-'. */
  lemma PartAccepted(part: string)
    ensures PartError(part).None? <==>
      |part| >= 3 && (part[0] == 'u' || part[0] == 'g' || part[0] == 'o' || part[0] == 'a') &&
      (part[1] == '+' || part[1] == '-')
  {
  }

  /** A part sets no bit beyond the nine permission bits. */
  lemma PartBitsWithinPermissionBits(part: string)
    ensures PartBits(part) & !0x1FF == 0
  {
    if |part| >= 3 {
      var b := WhatBits(part[2..]);
      assert b & !7 == 0;
    }
  }

  /** A value parsePerms accepts is at most 0o777. */
  lemma PermsWithinPermissionBits(parts: seq<string>)
    ensures PermsOf(parts).Ok? ==> PermsOf(parts).value & !0x1FF == 0
  {
    var ms := PartMasks(parts);
    forall j | 0 <= j < |ms|
      ensures ms[j] & !0x1FF == 0
    {
      PartBitsWithinPermissionBits(TrimSpace(parts[j]));
    }
    OrAllWithin(ms);
  }

  /** The flag is accepted exactly when every trimmed part is; a refused flag
      reports the error of the first part that is refused. */
  lemma PermsOkExactly(parts: seq<string>)
    ensures PermsOf(parts).Ok? <==> forall j :: 0 <= j < |parts| ==> PartErrors(parts)[j].None?
    ensures PermsOf(parts).Err? ==>
      exists j :: 0 <= j < |parts| && PartErrors(parts)[j] == Some(PermsOf(parts).error) &&
        forall i :: 0 <= i < j ==> PartErrors(parts)[i].None?
  {
    FirstErrorIsFirst(PartErrors(parts));
  }

  lemma PartOutcomesOfAppend(a: seq<string>, b: seq<string>)
    ensures PartErrors(a + b) == PartErrors(a) + PartErrors(b)
    ensures PartMasks(a + b) == PartMasks(a) + PartMasks(b)
  {
    var ab := a + b;
    forall j | 0 <= j < |ab|
      ensures ab[j] == (if j < |a| then a[j] else b[j - |a|])
    {
    }
  }

  /** Lists concatenate by OR: after a list `a` that parses, the mask of `a`
      followed by `b` is the OR of their masks, and a failure in `b` is the
      one reported; after a list that fails, nothing more is read. */
  lemma PermsOfAppend(a: seq<string>, b: seq<string>)
    ensures PermsOf(a).Ok? && PermsOf(b).Ok? ==> PermsOf(a + b) == Ok(PermsOf(a).value | PermsOf(b).value)
    ensures PermsOf(a).Ok? && PermsOf(b).Err? ==> PermsOf(a + b) == PermsOf(b)
    ensures PermsOf(a).Err? ==> PermsOf(a + b) == PermsOf(a)
  {
    PartOutcomesOfAppend(a, b);
    FirstErrorOfAppend(PartErrors(a), PartErrors(b));
    OrAllAppend(PartMasks(a), PartMasks(b));
  }

  function ClassShift(c: char): bv32
  {
    if c == 'u' then 6 else if c == 'g' then 3 else 0
  }

  function LetterBit(l: char): bv32
  {
    if l == 'r' then 4 else if l == 'w' then 2 else 1
  }

  /** The bit for letter `l` of class `c` is set by a part naming class `c`
      (or 'a') and mentioning `l`, whatever the operator. */
  lemma PartBitsSelect(who: char, op: char, what: string, c: char, l: char)
    requires who in "ugoa" && op in "+-" && what != "" && c in "ugo" && l in "rwx"
    ensures PartError([who, op] + what).None?
    ensures PartBits([who, op] + what) & (LetterBit(l) << ClassShift(c)) != 0 <==>
      (who == c || who == 'a') && l in what
  {
    var part := [who, op] + what;
    assert part[0] == who && part[1] == op && part[2..] == what;
    var b := WhatBits(what);
    assert b & 4 != 0 <==> 'r' in what;
    assert b & 2 != 0 <==> 'w' in what;
    assert b & 1 != 0 <==> 'x' in what;
  }

  /** '-' adds the same bits as '+', and is refused or accepted alike. */
  lemma MinusAddsLikePlus(who: char, what: string)
    requires what != ""
    ensures PartError([who, '-'] + what) == PartError([who, '+'] + what)
    ensures PartBits([who, '-'] + what) == PartBits([who, '+'] + what)
  {
    var minus, plus := [who, '-'] + what, [who, '+'] + what;
    assert minus[2..] == what == plus[2..];
  }
}
