/** Channel identity across storage representations, and the index that finds a channel again
    (app/channel_selector.py). The truncated hash of the selector is a parameter. Text is ASCII. */
module ChannelSelection {
  import opened Orders
  import opened Digits
  import opened Decimals
  import opened Tallies
  import opened Texts

  type Precision = p: nat | p > 0 witness 28

  /** The significant digits of the decimal context, 28 by default, and the selector's hash. */
  datatype Context = Context(precision: Precision, digest: (string, string) -> string)

  /** A stored value: absent, a boolean, or anything else by its `str`. */
  datatype Field = Null | Bool | Text(text: string)

  datatype Channel = Channel(id: Field, frequency: Field, payload: string)

  datatype Unit = Hz | KHz | MHz

  // ----- Text -----

  function WordLength(s: string): (n: nat)
    ensures n <= |s| && (s != [] && !IsSpace(s[0]) ==> n > 0)
  {
    if s == [] || IsSpace(s[0]) then 0 else 1 + WordLength(s[1..])
  }

  /** `" ".join(s.split())` */
  function Collapse(s: string): string
    decreases |s|
  {
    var t := TrimLeft(s);
    if t == [] then []
    else
      var n := WordLength(t);
      var rest := Collapse(t[n..]);
      if rest == [] then t[..n] else t[..n] + " " + rest
  }

  lemma {:induction false} WordEnds(word: string, rest: string)
    requires (forall c | c in word :: !IsSpace(c)) && (rest == [] || IsSpace(rest[0]))
    ensures WordLength(word + rest) == |word|
  {
    if word == [] {
      assert word + rest == rest;
    } else {
      assert word[0] in word && forall c | c in word[1..] :: c in word;
      assert (word + rest)[1..] == word[1..] + rest;
      WordEnds(word[1..], rest);
    }
  }

  /** Words are taken one by one and joined by single spaces. */
  lemma CollapseWord(pad: string, word: string, rest: string)
    requires (forall c | c in pad :: IsSpace(c)) && (forall c | c in word :: !IsSpace(c))
    requires word != [] && (rest == [] || IsSpace(rest[0]))
    ensures Collapse(pad + (word + rest))
            == if Collapse(rest) == [] then word else word + " " + Collapse(rest)
  {
    var t := word + rest;
    assert word[0] in word;
    TrimLeftSplits(pad, t);
    WordEnds(word, rest);
    assert t[|word|..] == rest && t[..|word|] == word;
  }

  lemma CollapseBlank(pad: string)
    requires forall c | c in pad :: IsSpace(c)
    ensures Collapse(pad) == []
  {
    TrimLeftSplits(pad, []);
    assert pad + [] == pad;
  }

  // ----- Channel ids -----

  function AtExponent(s: string): (string, Option<string>) {
    if s == [] then ([], None)
    else if s[0] == 'e' || s[0] == 'E' then ([], Some(s[1..]))
    else
      var rest := AtExponent(s[1..]);
      ([s[0]] + rest.0, rest.1)
  }

  function ReadExponent(s: string): Option<int> {
    var digits := if s != [] && IsSign(s[0]) then s[1..] else s;
    if digits == [] || !AllDigits(digits) then None
    else Some(if s[0] == '-' then 0 - Digits.Value(digits) else Digits.Value(digits))
  }

  /** `Decimal(text)` when it succeeds with a finite number. */
  function ReadDecimal(s: string): Option<Dec> {
    var parts := AtExponent(s);
    var mantissa := Read(parts.0);
    if mantissa.None? then None
    else if parts.1.None? then mantissa
    else
      match ReadExponent(parts.1.value)
      case None => None
      case Some(e) => Some(mantissa.value.(exp := mantissa.value.exp + e))
  }

  /** `normalize_channel_id` */
  function NormalizeChannelId(f: Field, ctx: Context): string {
    match f
    case Null | Bool => "z:"
    case Text(raw) =>
      match ReadDecimal(Trim(raw))
      case Some(d) => "n:" + CanonicalText(d, ctx.precision)
      case None => "t:" + Trim(raw)
  }

  /** `legacy_channel_id` */
  function LegacyChannelId(f: Field): Option<int> {
    match f
    case Null | Bool => None
    case Text(raw) =>
      match ReadDecimal(Trim(raw))
      case Some(d) => if IsWhole(d) then Some(ToInt(d)) else None
      case None => None
  }

  lemma {:induction false} NoExponentMark(s: string)
    requires 'e' !in s && 'E' !in s
    ensures AtExponent(s) == (s, None)
  {
    if s != [] {
      NoExponentMark(s[1..]);
      assert s == [s[0]] + s[1..];
    }
  }

  lemma ReadPlainDigits(digits: string, neg: bool)
    requires digits != [] && AllDigits(digits)
    ensures Read(if neg then "-" + digits else digits) == Some(Dec(neg, Digits.Value(digits), 0))
  {
    ReadWhole(digits);
    assert digits[0] in digits;
    assert ("-" + digits)[1..] == digits;
  }

  lemma IntTextShape(n: int)
    ensures Trim(IntText(n)) == IntText(n)
    ensures 'e' !in IntText(n) && 'E' !in IntText(n)
  {
    var digits := NatText(if n < 0 then -n else n);
    assert digits[0] in digits && digits[|digits| - 1] in digits;
    assert IntText(n)[|IntText(n)| - 1] == digits[|digits| - 1];
  }

  lemma ReadIntText(n: int)
    ensures ReadDecimal(IntText(n)) == Some(Dec(n < 0, if n < 0 then -n else n, 0))
  {
    var m: nat := if n < 0 then -n else n;
    ValueOfNatText(m);
    IntTextShape(n);
    NoExponentMark(IntText(n));
    ReadPlainDigits(NatText(m), n < 0);
  }

  lemma {:induction false} AtExponentSplits(m: string, mark: char, e: string)
    requires 'e' !in m && 'E' !in m && (mark == 'e' || mark == 'E')
    ensures AtExponent(m + ([mark] + e)) == (m, Some(e))
  {
    if m == [] {
      assert m + ([mark] + e) == [mark] + e;
    } else {
      assert (m + ([mark] + e))[1..] == m[1..] + ([mark] + e);
      AtExponentSplits(m[1..], mark, e);
      assert m == [m[0]] + m[1..];
    }
  }

  lemma DigitsAsExponent(digits: string)
    requires digits != [] && AllDigits(digits)
    ensures ReadExponent(digits) == Some(Digits.Value(digits))
  {
    assert digits[0] in digits;
  }

  lemma SignedExponent(sign: char, digits: string)
    requires IsSign(sign) && digits != [] && AllDigits(digits)
    ensures ReadExponent([sign] + digits)
            == Some(if sign == '-' then 0 - Digits.Value(digits) else Digits.Value(digits))
  {
    assert ([sign] + digits)[1..] == digits;
  }

  /** The exponent that a sign, if any, and digits denote. */
  lemma ExponentIsRead(sign: string, digits: string)
    requires IsSignText(sign) && digits != [] && AllDigits(digits)
    ensures ReadExponent(sign + digits)
            == Some(if sign == "-" then 0 - Digits.Value(digits) else Digits.Value(digits))
  {
    if sign == "" {
      DigitsAsExponent(digits);
      assert sign + digits == digits;
    } else {
      SignedExponent(sign[0], digits);
      assert sign == [sign[0]];
    }
  }

  /** In scientific notation the exponent is added to the mantissa's; without one the mantissa is
      the number. */
  lemma ScientificIsRead(m: string, mark: char, exponent: string, e: int)
    requires 'e' !in m && 'E' !in m && (mark == 'e' || mark == 'E') && ReadExponent(exponent) == Some(e)
    ensures ReadDecimal(m) == Read(m)
    ensures ReadDecimal(m + ([mark] + exponent)) == match Read(m)
                                                    case None => None
                                                    case Some(d) => Some(Dec(d.neg, d.coeff, d.exp + e))
  {
    NoExponentMark(m);
    AtExponentSplits(m, mark, exponent);
  }

  /** The number an id denotes, if it is one. */
  function IdNumber(f: Field): Option<Dec> { if f.Text? then ReadDecimal(Trim(f.text)) else None }

  /** An id is absent, a number or a text, and which one shows in the first character. Numbers with
      one normalised id agree after rounding, and texts apart from white space at the ends. */
  lemma IdKinds(f: Field, g: Field, ctx: Context)
    ensures NormalizeChannelId(f, ctx)[..2] == if !f.Text? then "z:" else if IdNumber(f).Some? then "n:" else "t:"
    ensures f.Text? && g.Text? && IdNumber(f).None? && IdNumber(g).None? ==>
              (NormalizeChannelId(f, ctx) == NormalizeChannelId(g, ctx) <==> Trim(f.text) == Trim(g.text))
  {
    if f.Text? && g.Text? && IdNumber(f).None? && IdNumber(g).None? {
      assert NormalizeChannelId(f, ctx)[2..] == Trim(f.text);
      assert NormalizeChannelId(g, ctx)[2..] == Trim(g.text);
    }
  }

  /** The legacy id of an id that is already an integer is that integer. */
  lemma LegacyOfInteger(n: int)
    ensures LegacyChannelId(Text(IntText(n))) == Some(n)
  {
    ReadIntText(n);
    IntTextShape(n);
    var m: nat := if n < 0 then -n else n;
    assert Pow10(0) == 1 && m * 1 == m;
  }

  /** The normalised id is never coarser on whole numbers than the legacy id: ids with one legacy
      integer have one normalised text. */
  lemma SameLegacySameNormalized(f: Field, g: Field, ctx: Context)
    requires LegacyChannelId(f).Some? && LegacyChannelId(f) == LegacyChannelId(g)
    ensures NormalizeChannelId(f, ctx) == NormalizeChannelId(g, ctx)
  {
    var a, b := IdNumber(f).value, IdNumber(g).value;
    var n := LegacyChannelId(f).value;
    WholeIffIntegerValue(a, n);
    WholeIffIntegerValue(b, n);
    TextIdentifiesValue(a, b, ctx.precision);
  }

  /** For ids within the context's precision it is not finer either. */
  lemma SameNormalizedSameLegacy(f: Field, g: Field, ctx: Context)
    requires LegacyChannelId(f).Some? && NormalizeChannelId(f, ctx) == NormalizeChannelId(g, ctx)
    requires forall d | IdNumber(f) == Some(d) || IdNumber(g) == Some(d) :: Fits(d, ctx.precision)
    ensures LegacyChannelId(f) == LegacyChannelId(g)
  {
    var n := LegacyChannelId(f).value;
    PrefixTells(f, g, ctx);
    var a, b := IdNumber(f).value, IdNumber(g).value;
    WholeIffIntegerValue(a, n);
    WholeIffIntegerValue(b, n);
    assert ("n:" + CanonicalText(a, ctx.precision))[2..] == CanonicalText(a, ctx.precision);
    assert ("n:" + CanonicalText(b, ctx.precision))[2..] == CanonicalText(b, ctx.precision);
    TextIdentifiesValue(a, b, ctx.precision);
  }

  lemma PrefixTells(f: Field, g: Field, ctx: Context)
    requires NormalizeChannelId(f, ctx) == NormalizeChannelId(g, ctx)
    ensures IdNumber(f).Some? <==> IdNumber(g).Some?
  {
    assert NormalizeChannelId(f, ctx)[0] == NormalizeChannelId(g, ctx)[0];
  }

  // ----- Frequencies -----

  predicate IsNumberChar(c: char) { IsDigit(c) || IsSign(c) || c == '.' }

  function NumberLength(s: string): (n: nat)
    ensures n <= |s|
  {
    if s == [] || !IsNumberChar(s[0]) then 0 else 1 + NumberLength(s[1..])
  }

  function ReadUnit(s: string): Option<Unit> {
    var unit := Lower(s);
    if unit == "hz" then Some(Hz)
    else if unit == "khz" then Some(KHz)
    else if unit == "mhz" || unit == "" then Some(MHz)
    else None
  }

  /** The units, MHz where none is given. */
  const UNITS := [("hz", Hz), ("khz", KHz), ("mhz", MHz), ("", MHz)]

  /** Units are read in any case, and no other word is one. */
  lemma UnitIsRead(s: string, unit: Unit)
    ensures ReadUnit(s) == Some(unit) <==> (Lower(s), unit) in UNITS
  {
    assert (Lower(s), unit) in UNITS <==>
           (Lower(s), unit) == UNITS[0] || (Lower(s), unit) == UNITS[1] || (Lower(s), unit) == UNITS[2]
           || (Lower(s), unit) == UNITS[3];
    assert "hz"[0] != "khz"[0] && "hz"[0] != "mhz"[0] && "khz"[0] != "mhz"[0];
  }

  /** A match of the frequency pattern: a number, optional space, an optional unit. */
  function ReadFrequency(s: string): Option<(Dec, Unit)> {
    var n := NumberLength(s);
    var number, unit := Read(s[..n]), ReadUnit(TrimLeft(s[n..]));
    if number.Some? && unit.Some? then Some((number.value, unit.value)) else None
  }

  lemma {:induction false} NumberEnds(number: string, rest: string)
    requires (forall c | c in number :: IsNumberChar(c)) && (rest == [] || !IsNumberChar(rest[0]))
    ensures NumberLength(number + rest) == |number|
  {
    if number == [] {
      assert number + rest == rest;
    } else {
      assert number[0] in number && forall c | c in number[1..] :: c in number;
      assert (number + rest)[1..] == number[1..] + rest;
      NumberEnds(number[1..], rest);
    }
  }

  lemma NumeralCharacters(s: string)
    requires Read(s).Some?
    ensures forall c | c in s :: IsNumberChar(c)
  {
    var sign, a, b := OnlyNumeralsAreRead(s);
    assert forall c | c in a || c in b :: c in a + b;
    forall c | c in s ensures IsNumberChar(c) {
      assert c in sign || c in a || c in b || c == '.';
    }
  }

  /** A numeral, white space and a word that starts with a letter are read as number and unit. */
  lemma FrequencyIsRead(number: string, pad: string, word: string)
    requires Read(number).Some? && forall c | c in pad :: IsSpace(c)
    requires word == [] || (!IsSpace(word[0]) && !IsNumberChar(word[0]))
    ensures ReadFrequency(number + (pad + word))
            == match ReadUnit(word)
               case None => None
               case Some(unit) => Some((Read(number).value, unit))
  {
    NumeralCharacters(number);
    assert pad != [] ==> pad[0] in pad;
    assert pad == [] ==> pad + word == word;
    NumberEnds(number, pad + word);
    var text := number + (pad + word);
    assert text[..|number|] == number && text[|number|..] == pad + word;
    TrimLeftSplits(pad, word);
  }

  function Shifted(d: Dec, k: nat): Dec { d.(exp := d.exp - k) }

  function ToMHz(d: Dec, unit: Unit): Dec {
    match unit
    case Hz => Shifted(d, 6)
    case KHz => Shifted(d, 3)
    case MHz => d
  }

  lemma ThousandMoves(c: nat, e: int)
    ensures Magnitude(c, e - 3) * 1000.0 == Magnitude(c, e)
  {
    assert Scale(e) == 10.0 * Scale(e - 1) == 100.0 * Scale(e - 2) == 1000.0 * Scale(e - 3);
    assert (c as real * Scale(e - 3)) * 1000.0 == c as real * (1000.0 * Scale(e - 3));
  }

  /** A thousand kHz, and a million Hz, are one MHz. */
  lemma UnitsScale(d: Dec)
    ensures Decimals.Value(ToMHz(d, MHz)) == Decimals.Value(d)
    ensures Decimals.Value(ToMHz(d, KHz)) * 1000.0 == Decimals.Value(d)
    ensures Decimals.Value(ToMHz(d, Hz)) * 1000.0 * 1000.0 == Decimals.Value(d)
  {
    ThousandMoves(d.coeff, d.exp);
    ThousandMoves(d.coeff, d.exp - 3);
  }

  /** The exact frequency in MHz a field denotes, if it is numeric. */
  function ExactMHz(f: Field): Option<Dec> {
    if !f.Text? then None
    else
      match ReadFrequency(Trim(f.text))
      case None => None
      case Some((d, unit)) => Some(ToMHz(d, unit))
  }

  /** A division rounds to the context's precision, and so does the normalisation. */
  function NumberText(d: Dec, unit: Unit, ctx: Context): string {
    "n:" + CanonicalText(if unit.MHz? then d else Round(ToMHz(d, unit), ctx.precision), ctx.precision)
  }

  /** `normalize_frequency` */
  function NormalizeFrequency(f: Field, ctx: Context): (r: string)
    ensures r != [] && (r[0] == 'n' <==> ExactMHz(f).Some?)
  {
    match f
    case Null | Bool => "z:"
    case Text(raw) =>
      var text := Trim(raw);
      match ReadFrequency(text)
      case None => "t:" + Collapse(Lower(text))
      case Some((d, unit)) => NumberText(d, unit, ctx)
  }

  lemma SameTag(a: string, b: string)
    ensures "t:" + a == "t:" + b <==> a == b
  {
    assert ("t:" + a)[2..] == a && ("t:" + b)[2..] == b;
  }

  lemma TextFrequency(f: Field, ctx: Context)
    requires f.Text? && ExactMHz(f).None?
    ensures NormalizeFrequency(f, ctx) == "t:" + Collapse(Lower(Trim(f.text)))
  {
  }

  /** A frequency is absent, a number or a text, and which one shows in the first character. */
  lemma FrequencyKinds(f: Field, ctx: Context)
    ensures NormalizeFrequency(f, ctx)[..2] == if !f.Text? then "z:" else if ExactMHz(f).Some? then "n:" else "t:"
  {
    if f.Text? && ExactMHz(f).None? {
      TextFrequency(f, ctx);
    }
  }

  /** Texts with one normalised form agree apart from case and the amount of white space. */
  lemma TextFrequencies(f: Field, g: Field, ctx: Context)
    requires f.Text? && g.Text? && ExactMHz(f).None? && ExactMHz(g).None?
    ensures NormalizeFrequency(f, ctx) == NormalizeFrequency(g, ctx) <==>
            Collapse(Lower(Trim(f.text))) == Collapse(Lower(Trim(g.text)))
  {
    TextFrequency(f, ctx);
    TextFrequency(g, ctx);
    SameTag(Collapse(Lower(Trim(f.text))), Collapse(Lower(Trim(g.text))));
  }

  lemma NumberTextOf(d: Dec, unit: Unit, ctx: Context)
    ensures NumberText(d, unit, ctx) == "n:" + CanonicalText(ToMHz(d, unit), ctx.precision)
  {
    CanonicalTextIsStable(ToMHz(d, unit), ctx.precision);
  }

  lemma NormalizedOfNumber(f: Field, ctx: Context)
    ensures ExactMHz(f).Some? ==> NormalizeFrequency(f, ctx) == "n:" + CanonicalText(ExactMHz(f).value, ctx.precision)
  {
    if f.Text? && ReadFrequency(Trim(f.text)).Some? {
      var (d, unit) := ReadFrequency(Trim(f.text)).value;
      NumberTextOf(d, unit, ctx);
    }
  }

  /** However they are spelled, two numeric frequencies get one text exactly when they agree
      rounded to the context's precision: always when they are equal, and within it only then.
      A frequency that is not numeric never shares the text of one that is. */
  lemma FrequencyTextIdentifiesValue(f: Field, g: Field, ctx: Context)
    requires ExactMHz(f).Some?
    ensures ExactMHz(g).None? ==> NormalizeFrequency(f, ctx) != NormalizeFrequency(g, ctx)
    ensures ExactMHz(g).Some? ==>
            var a, b := ExactMHz(f).value, ExactMHz(g).value;
            var same := NormalizeFrequency(f, ctx) == NormalizeFrequency(g, ctx);
            && (same <==> Decimals.Value(Round(a, ctx.precision)) == Decimals.Value(Round(b, ctx.precision)))
            && (Decimals.Value(a) == Decimals.Value(b) ==> same)
            && (Fits(a, ctx.precision) && Fits(b, ctx.precision) ==> (same <==> Decimals.Value(a) == Decimals.Value(b)))
  {
    NormalizedOfNumber(f, ctx);
    NormalizedOfNumber(g, ctx);
    if ExactMHz(g).Some? {
      var a, b := ExactMHz(f).value, ExactMHz(g).value;
      assert NormalizeFrequency(f, ctx)[2..] == CanonicalText(a, ctx.precision);
      assert NormalizeFrequency(g, ctx)[2..] == CanonicalText(b, ctx.precision);
      SameTextIffSameRounding(a, b, ctx.precision);
      TextIdentifiesValue(a, b, ctx.precision);
    }
  }

  // ----- Selectors and the index -----

  /** `channel_selector` */
  function Selector(c: Channel, ctx: Context): string {
    ctx.digest(NormalizeChannelId(c.id, ctx), NormalizeFrequency(c.frequency, ctx))
  }

  datatype Identity = BySelector(selector: string) | ByLegacyId(id: Field)

  /** The digest tells the rows apart that differ in normalised id or frequency. */
  ghost predicate DigestSeparates(cs: seq<Channel>, ctx: Context) {
    forall c, d | c in cs && d in cs && Selector(c, ctx) == Selector(d, ctx) ::
      NormalizeChannelId(c.id, ctx) == NormalizeChannelId(d.id, ctx)
      && NormalizeFrequency(c.frequency, ctx) == NormalizeFrequency(d.frequency, ctx)
  }

  /** A selector is the hash of the normalised id and frequency; one without collisions separates. */
  lemma SelectorIsDigest(cs: seq<Channel>, ctx: Context)
    requires forall x, y, u, v :: ctx.digest(x, y) == ctx.digest(u, v) ==> x == u && y == v
    ensures DigestSeparates(cs, ctx)
    ensures forall c ::
              Selector(c, ctx) == ctx.digest(NormalizeChannelId(c.id, ctx), NormalizeFrequency(c.frequency, ctx))
  {
  }

  /** What one channel row must satisfy to match an identity. */
  predicate Matches(c: Channel, want: Identity, ctx: Context) {
    match want
    case BySelector(s) => Selector(c, ctx) == s
    case ByLegacyId(id) => LegacyChannelId(id).Some? && LegacyChannelId(c.id) == LegacyChannelId(id)
  }

  // A linear scan, for any row type and any test.

  function Sole<T>(found: seq<T>): Option<T> { if |found| == 1 then Some(found[0]) else None }

  ghost predicate OnlyAt<T>(rows: seq<T>, i: nat, test: T -> bool) {
    i < |rows| && forall j | 0 <= j < |rows| :: test(rows[j]) <==> j == i
  }

  lemma {:induction false} EmptyScan<T>(rows: seq<T>, test: T -> bool)
    ensures Filter(rows, test) == [] <==> forall j | 0 <= j < |rows| :: !test(rows[j])
  {
    if rows != [] {
      EmptyScan(rows[1..], test);
    }
  }

  /** The scan reports a row exactly when that row is the only one to pass the test. */
  lemma {:induction false} ScanFindsOnlyMatch<T>(rows: seq<T>, i: nat, test: T -> bool)
    requires OnlyAt(rows, i, test)
    ensures Sole(Filter(rows, test)) == Some(rows[i])
  {
    if i == 0 {
      EmptyScan(rows[1..], test);
    } else {
      ScanFindsOnlyMatch(rows[1..], i - 1, test);
    }
  }

  lemma {:induction false} FoundIsOnlyMatch<T>(rows: seq<T>, test: T -> bool) returns (i: nat)
    requires Sole(Filter(rows, test)).Some?
    ensures OnlyAt(rows, i, test) && Sole(Filter(rows, test)) == Some(rows[i])
  {
    EmptyScan(rows[1..], test);
    if test(rows[0]) {
      i := 0;
    } else {
      i := FoundIsOnlyMatch(rows[1..], test);
      i := i + 1;
    }
  }

  lemma TwoMatchesFindNothing<T>(rows: seq<T>, i: nat, j: nat, test: T -> bool)
    requires i < |rows| && j < |rows| && i != j && test(rows[i]) && test(rows[j])
    ensures Sole(Filter(rows, test)) == None
  {
    if Sole(Filter(rows, test)).Some? {
      var k := FoundIsOnlyMatch(rows, test);
    }
  }

  function Test(want: Identity, ctx: Context): Channel -> bool {
    c => Matches(c, want, ctx)
  }

  /** The sole match of a linear scan of the rows, or None. */
  function Lookup(cs: seq<Channel>, want: Identity, ctx: Context): Option<Channel> {
    Sole(Filter(cs, Test(want, ctx)))
  }

  // The index: rows grouped by key.

  datatype Key = SelectorKey(selector: string) | LegacyKey(id: int)

  function RowKey(c: Channel, bySelector: bool, ctx: Context): Option<Key> {
    if bySelector then Some(SelectorKey(Selector(c, ctx)))
    else
      match LegacyChannelId(c.id)
      case None => None
      case Some(n) => Some(LegacyKey(n))
  }

  function WantedKey(want: Identity): Option<Key> {
    match want
    case BySelector(s) => Some(SelectorKey(s))
    case ByLegacyId(id) =>
      match LegacyChannelId(id)
      case None => None
      case Some(n) => Some(LegacyKey(n))
  }

  function Group<K, T>(index: map<K, seq<T>>, key: K): seq<T> { if key in index then index[key] else [] }

  function HasKey<K(==), T>(keyOf: T -> Option<K>, key: K): T -> bool { row => keyOf(row) == Some(key) }

  ghost predicate Indexes<K(!new), T>(index: map<K, seq<T>>, rows: seq<T>, keyOf: T -> Option<K>) {
    forall key :: Group(index, key) == Filter(rows, HasKey(keyOf, key))
  }

  lemma IndexOneMore<K(!new), T>(index: map<K, seq<T>>, rows: seq<T>, row: T, keyOf: T -> Option<K>)
    requires Indexes(index, rows, keyOf)
    ensures keyOf(row).None? ==> Indexes(index, rows + [row], keyOf)
    ensures keyOf(row).Some? ==>
            var key := keyOf(row).value;
            Indexes(index[key := Group(index, key) + [row]], rows + [row], keyOf)
  {
    forall key ensures Filter(rows + [row], HasKey(keyOf, key))
                       == if keyOf(row) == Some(key) then Filter(rows, HasKey(keyOf, key)) + [row]
                           else Filter(rows, HasKey(keyOf, key))
    {
      FilterSnoc(rows, row, HasKey(keyOf, key));
    }
  }

  method BuildIndex<K(!new, ==), T>(rows: seq<T>, keyOf: T -> Option<K>) returns (index: map<K, seq<T>>)
    ensures Indexes(index, rows, keyOf)
  {
    index := map[];
    for i := 0 to |rows|
      invariant Indexes(index, rows[..i], keyOf)
    {
      IndexOneMore(index, rows[..i], rows[i], keyOf);
      assert rows[..i + 1] == rows[..i] + [rows[i]];
      match keyOf(rows[i])
      case None =>
      case Some(key) => index := index[key := Group(index, key) + [rows[i]]];
    }
    assert rows[..|rows|] == rows;
  }

  lemma {:induction false} ScanSameTest<T>(rows: seq<T>, p: T -> bool, q: T -> bool)
    requires forall row | row in rows :: p(row) <==> q(row)
    ensures Filter(rows, p) == Filter(rows, q)
  {
    if rows != [] {
      ScanSameTest(rows[1..], p, q);
    }
  }

  /** A row's key is the wanted one exactly when the row matches. */
  lemma KeysDecideMatches(c: Channel, want: Identity, ctx: Context)
    ensures Matches(c, want, ctx)
            <==> WantedKey(want).Some? && RowKey(c, want.BySelector?, ctx) == WantedKey(want)
  {
  }

  function KeyOf(bySelector: bool, ctx: Context): Channel -> Option<Key> {
    c => RowKey(c, bySelector, ctx)
  }

  lemma IndexAgreesWithScan(index: map<Key, seq<Channel>>, cs: seq<Channel>, want: Identity, ctx: Context)
    requires Indexes(index, cs, KeyOf(want.BySelector?, ctx))
    ensures WantedKey(want).Some? ==> Lookup(cs, want, ctx) == Sole(Group(index, WantedKey(want).value))
    ensures WantedKey(want).None? ==> Lookup(cs, want, ctx) == None
  {
    forall c ensures Matches(c, want, ctx)
                     <==> WantedKey(want).Some? && RowKey(c, want.BySelector?, ctx) == WantedKey(want)
    {
      KeysDecideMatches(c, want, ctx);
    }
    if WantedKey(want).Some? {
      var key := WantedKey(want).value;
      ScanSameTest(cs, Test(want, ctx), HasKey(KeyOf(want.BySelector?, ctx), key));
    } else {
      EmptyScan(cs, Test(want, ctx));
    }
  }

  /** A requested identity as a dictionary key: a selector by its text, an id by what Python's
      equality makes of it, under which `1`, `1.0` and `True` are one key. */
  datatype Name<K> = OfSelector(selector: string) | OfId(key: K)

  datatype Request<K> = Request(name: Name<K>, want: Identity)

  function Requested<K>(selectors: seq<string>, ids: seq<(K, Field)>): (rs: seq<Request<K>>)
    ensures forall r | r in rs :: r.want.BySelector? <==> selectors != []
  {
    if selectors != [] then
      seq(|selectors|, i requires 0 <= i < |selectors| => Request(OfSelector(selectors[i]), BySelector(selectors[i])))
    else seq(|ids|, i requires 0 <= i < |ids| => Request(OfId(ids[i].0), ByLegacyId(ids[i].1)))
  }

  /** Among the first `n` requests the `i`-th is the last one under its name. */
  ghost predicate LastUnderName<K(!new)>(rs: seq<Request<K>>, n: nat, i: nat) {
    i < n <= |rs| && forall j | i < j < n :: rs[j].name != rs[i].name
  }

  ghost predicate NameAmong<K>(rs: seq<Request<K>>, n: nat, name: Name<K>) {
    exists i :: 0 <= i < n <= |rs| && rs[i].name == name
  }

  /** The names asked for in the first `n` requests, each answered by a linear scan for the last
      request under it. */
  ghost predicate Answers<K(!new)>(result: map<Name<K>, Option<Channel>>, cs: seq<Channel>, rs: seq<Request<K>>, n: nat,
                                   ctx: Context) {
    && (forall name :: name in result <==> NameAmong(rs, n, name))
    && (forall i: nat | LastUnderName(rs, n, i) && rs[i].name in result ::
          result[rs[i].name] == Lookup(cs, rs[i].want, ctx))
  }

  lemma OneMoreName<K(!new)>(rs: seq<Request<K>>, n: nat, name: Name<K>)
    requires n < |rs|
    ensures NameAmong(rs, n + 1, name) <==> NameAmong(rs, n, name) || name == rs[n].name
  {
  }

  lemma OneMoreLast<K(!new)>(rs: seq<Request<K>>, n: nat, i: nat)
    requires LastUnderName(rs, n + 1, i)
    ensures i == n || (LastUnderName(rs, n, i) && rs[i].name != rs[n].name)
  {
  }

  lemma OneMoreAnswer<K(!new)>(result: map<Name<K>, Option<Channel>>, cs: seq<Channel>, rs: seq<Request<K>>,
                               n: nat, ctx: Context)
    requires n < |rs| && Answers(result, cs, rs, n, ctx)
    ensures Answers(result[rs[n].name := Lookup(cs, rs[n].want, ctx)], cs, rs, n + 1, ctx)
  {
    var answer := Lookup(cs, rs[n].want, ctx);
    var longer := result[rs[n].name := answer];
    forall name ensures name in longer <==> NameAmong(rs, n + 1, name) {
      OneMoreName(rs, n, name);
    }
    forall i: nat | LastUnderName(rs, n + 1, i) && rs[i].name in longer
      ensures longer[rs[i].name] == Lookup(cs, rs[i].want, ctx)
    {
      OneMoreLast(rs, n, i);
    }
  }

  /** Selectors alone are asked for if there are any, and ids otherwise, in order. */
  lemma RequestedInOrder<K>(selectors: seq<string>, ids: seq<(K, Field)>)
    ensures var rs := Requested(selectors, ids);
            if selectors != []
            then |rs| == |selectors|
                 && forall i | 0 <= i < |rs| ::
                      rs[i].name == OfSelector(selectors[i]) && rs[i].want == BySelector(selectors[i])
            else |rs| == |ids|
                 && forall i | 0 <= i < |rs| ::
                      rs[i].name == OfId(ids[i].0) && rs[i].want == ByLegacyId(ids[i].1)
  {
  }

  /** `match_channels`: selectors are served first, and legacy ids only when there are none. */
  method MatchChannels<K(!new, ==)>(cs: seq<Channel>, selectors: seq<string>, ids: seq<(K, Field)>, ctx: Context)
    returns (result: map<Name<K>, Option<Channel>>)
    ensures var requested := Requested(selectors, ids); Answers(result, cs, requested, |requested|, ctx)
  {
    var bySelector := selectors != [];
    var requested := Requested(selectors, ids);
    result := map[];
    if requested == [] {
      return;
    }
    var index := BuildIndex(cs, KeyOf(bySelector, ctx));
    for i := 0 to |requested|
      invariant Answers(result, cs, requested, i, ctx)
    {
      var want := requested[i].want;
      IndexAgreesWithScan(index, cs, want, ctx);
      OneMoreAnswer(result, cs, requested, i, ctx);
      var key := WantedKey(want);
      result := result[requested[i].name := if key.None? then None else Sole(Group(index, key.value))];
    }
  }

  // ----- Rows for the frontend -----

  datatype Row = Row(channel: Channel, selector: string, selectorRequired: bool, legacyId: Option<int>)

  ghost predicate SharedAt(keys: seq<string>, i: nat)
    requires i < |keys|
  {
    exists j | 0 <= j < |keys| :: j != i && keys[j] == keys[i]
  }

  /** A counter above one means that another position holds the same key. */
  lemma {:induction false} CountAboveOne(keys: seq<string>, i: nat)
    requires i < |keys|
    ensures Occurrences(keys, keys[i]) > 1 <==> SharedAt(keys, i)
  {
    var n := |keys| - 1;
    var rest := keys[..n];
    OccursIffMember(rest, keys[i]);
    if i == n {
      if keys[i] in rest {
        var j :| 0 <= j < n && rest[j] == keys[i];
        assert keys[j] == keys[i];
      }
    } else {
      CountAboveOne(rest, i);
      assert rest[i] == keys[i];
      if SharedAt(rest, i) {
        var j :| 0 <= j < n && j != i && rest[j] == rest[i];
        assert keys[j] == keys[i];
      }
      if SharedAt(keys, i) && keys[n] != keys[i] {
        var j :| 0 <= j < |keys| && j != i && keys[j] == keys[i];
        assert rest[j] == rest[i];
      }
    }
  }

  function Ids(cs: seq<Channel>, ctx: Context): seq<string> {
    seq(|cs|, i requires 0 <= i < |cs| => NormalizeChannelId(cs[i].id, ctx))
  }

  /** What a row promises: its selector, its legacy id, and that a selector is needed exactly
      when there is no legacy id or another channel has the same normalised id. */
  ghost predicate RowOf(r: Row, cs: seq<Channel>, i: nat, ctx: Context)
    requires i < |cs|
  {
    && r.channel == cs[i] && r.selector == Selector(cs[i], ctx) && r.legacyId == LegacyChannelId(cs[i].id)
    && (r.selectorRequired <==> r.legacyId.None? || SharedAt(Ids(cs, ctx), i))
  }

  method CountIds(keys: seq<string>) returns (counts: map<string, nat>)
    ensures forall key :: (if key in counts then counts[key] else 0) == Occurrences(keys, key)
  {
    counts := map[];
    for i := 0 to |keys|
      invariant forall key :: (if key in counts then counts[key] else 0) == Occurrences(keys[..i], key)
    {
      assert keys[..i + 1][..i] == keys[..i];
      counts := counts[keys[i] := 1 + if keys[i] in counts then counts[keys[i]] else 0];
    }
    assert keys[..|keys|] == keys;
  }

  method MakeRow(cs: seq<Channel>, i: nat, ctx: Context, keys: seq<string>, counts: map<string, nat>)
    returns (row: Row)
    requires i < |cs| && keys == Ids(cs, ctx)
    requires forall key :: (if key in counts then counts[key] else 0) == Occurrences(keys, key)
    ensures RowOf(row, cs, i, ctx)
  {
    CountAboveOne(keys, i);
    OccursIffMember(keys, keys[i]);
    var legacyId := LegacyChannelId(cs[i].id);
    row := Row(cs[i], Selector(cs[i], ctx), legacyId.None? || counts[keys[i]] > 1, legacyId);
  }

  ghost predicate RowsSoFar(rows: seq<Row>, cs: seq<Channel>, ctx: Context) {
    |rows| <= |cs| && forall k | 0 <= k < |rows| :: RowOf(rows[k], cs, k, ctx)
  }

  lemma AnotherRow(rows: seq<Row>, row: Row, cs: seq<Channel>, ctx: Context)
    requires RowsSoFar(rows, cs, ctx) && |rows| < |cs| && RowOf(row, cs, |rows|, ctx)
    ensures RowsSoFar(rows + [row], cs, ctx)
  {
    var all := rows + [row];
    forall k | 0 <= k < |all| ensures RowOf(all[k], cs, k, ctx) {
      if k < |rows| {
        assert RowOf(rows[k], cs, k, ctx);
      }
    }
  }

  /** `attach_channel_selectors` */
  method AttachChannelSelectors(cs: seq<Channel>, ctx: Context) returns (rows: seq<Row>)
    ensures |rows| == |cs|
    ensures forall i | 0 <= i < |cs| :: RowOf(rows[i], cs, i, ctx)
  {
    var keys := Ids(cs, ctx);
    var counts := CountIds(keys);
    rows := [];
    for i := 0 to |cs|
      invariant |rows| == i && RowsSoFar(rows, cs, ctx)
    {
      var row := MakeRow(cs, i, ctx, keys, counts);
      AnotherRow(rows, row, cs, ctx);
      rows := rows + [row];
    }
  }

  /** A row that needs no selector is found by its legacy id, and it alone. */
  lemma LegacyLookupIsExact(cs: seq<Channel>, i: nat, r: Row, ctx: Context)
    requires i < |cs| && RowOf(r, cs, i, ctx) && !r.selectorRequired
    ensures var want := ByLegacyId(Text(IntText(r.legacyId.value)));
            OnlyAt(cs, i, Test(want, ctx)) && Lookup(cs, want, ctx) == Some(cs[i])
  {
    var n := r.legacyId.value;
    var want := ByLegacyId(Text(IntText(n)));
    LegacyOfInteger(n);
    forall j | 0 <= j < |cs| ensures Matches(cs[j], want, ctx) <==> j == i {
      if LegacyChannelId(cs[j].id) == Some(n) {
        SameLegacySameNormalized(cs[j].id, cs[i].id, ctx);
        assert Ids(cs, ctx)[j] == Ids(cs, ctx)[i];
      }
    }
    ScanFindsOnlyMatch(cs, i, Test(want, ctx));
  }

  /** Conversely, as long as ids are within the precision, a selector is asked for only
      where the legacy id is missing or would find nothing. */
  lemma SelectorRequiredOnlyIfNeeded(cs: seq<Channel>, i: nat, r: Row, ctx: Context)
    requires i < |cs| && RowOf(r, cs, i, ctx) && r.selectorRequired && r.legacyId.Some?
    requires forall c, d | c in cs && IdNumber(c.id) == Some(d) :: Fits(d, ctx.precision)
    ensures Lookup(cs, ByLegacyId(Text(IntText(r.legacyId.value))), ctx).None?
  {
    var n := r.legacyId.value;
    var want := ByLegacyId(Text(IntText(n)));
    LegacyOfInteger(n);
    var j :| 0 <= j < |cs| && j != i && Ids(cs, ctx)[j] == Ids(cs, ctx)[i];
    SameNormalizedSameLegacy(cs[i].id, cs[j].id, ctx);
    TwoMatchesFindNothing(cs, i, j, Test(want, ctx));
  }

  /** With a digest that separates the rows, a selector finds a row exactly when no other row
      agrees with it in normalised id and normalised frequency. */
  lemma SelectorLookupIsExact(cs: seq<Channel>, i: nat, ctx: Context)
    requires i < |cs| && DigestSeparates(cs, ctx)
    ensures Lookup(cs, BySelector(Selector(cs[i], ctx)), ctx) == Some(cs[i])
            <== forall j | 0 <= j < |cs| && j != i ::
                  NormalizeChannelId(cs[j].id, ctx) != NormalizeChannelId(cs[i].id, ctx)
                  || NormalizeFrequency(cs[j].frequency, ctx) != NormalizeFrequency(cs[i].frequency, ctx)
    ensures (exists j | 0 <= j < |cs| && j != i ::
              NormalizeChannelId(cs[j].id, ctx) == NormalizeChannelId(cs[i].id, ctx)
              && NormalizeFrequency(cs[j].frequency, ctx) == NormalizeFrequency(cs[i].frequency, ctx))
            ==> Lookup(cs, BySelector(Selector(cs[i], ctx)), ctx) == None
  {
    var want := BySelector(Selector(cs[i], ctx));
    if forall j | 0 <= j < |cs| && j != i :: !Matches(cs[j], want, ctx) {
      ScanFindsOnlyMatch(cs, i, Test(want, ctx));
    } else {
      var j :| 0 <= j < |cs| && j != i && Matches(cs[j], want, ctx);
      TwoMatchesFindNothing(cs, i, j, Test(want, ctx));
    }
  }
}
