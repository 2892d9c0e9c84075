/**
 * The detail card (src/components/PokemonCard.jsx): the values it derives
 * from a fetched record before laying them out. Everything here is pure.
 */
module PokemonCard {
  import opened Wrappers
  import opened Text

  /** One entry of the record's `stats` list: `stat.name` and `base_stat`. */
  datatype Stat = Stat(name: string, baseStat: int)

  /** One entry of the record's `abilities` list: `ability.name` and `is_hidden`. */
  datatype Ability = Ability(name: string, isHidden: bool)

  /**
   * The part of a detail record the card reads. Heights and weights are in
   * decimetres and hectograms; `types` and `moves` hold the type and move names.
   */
  datatype Pokemon = Pokemon(
    name: string,
    id: int,
    height: nat,
    weight: nat,
    baseExperience: int,
    types: seq<string>,
    stats: seq<Stat>,
    abilities: seq<Ability>,
    moves: seq<string>)

  // ---------------------------------------------------------------------
  // Stat icons
  // ---------------------------------------------------------------------

  /** The six icons of the stat list. */
  datatype Icon = Heart | Fist | ShieldAlt | PunchBlast | MagicShield | Running

  /** The stat names the card has an icon for. */
  const IconStatNames: seq<string> := ["hp", "attack", "defense", "special-attack", "special-defense", "speed"]

  /** `StatIcon`: the icon for a stat name, `null` for any other name. */
  function StatIcon(statName: string): (icon: Option<Icon>)
    ensures icon.Some? <==> statName in IconStatNames
  {
    if statName == "hp" then Some(Heart)
    else if statName == "attack" then Some(Fist)
    else if statName == "defense" then Some(ShieldAlt)
    else if statName == "special-attack" then Some(PunchBlast)
    else if statName == "special-defense" then Some(MagicShield)
    else if statName == "speed" then Some(Running)
    else None
  }

  /** Different stat names never share an icon, and every icon is used. */
  lemma StatIconBijective(a: string, b: string, icon: Icon)
    ensures StatIcon(a).Some? && StatIcon(a) == StatIcon(b) ==> a == b
    ensures exists n :: n in IconStatNames && StatIcon(n) == Some(icon)
  {
    match icon
    case Heart => assert StatIcon(IconStatNames[0]) == Some(icon);
    case Fist => assert StatIcon(IconStatNames[1]) == Some(icon);
    case ShieldAlt => assert StatIcon(IconStatNames[2]) == Some(icon);
    case PunchBlast => assert StatIcon(IconStatNames[3]) == Some(icon);
    case MagicShield => assert StatIcon(IconStatNames[4]) == Some(icon);
    case Running => assert StatIcon(IconStatNames[5]) == Some(icon);
  }

  // ---------------------------------------------------------------------
  // formatStatName
  // ---------------------------------------------------------------------

  /** `word.charAt(0).toUpperCase() + word.slice(1)`. */
  function Capitalize(word: string): (r: string)
    ensures |r| == |word|
    ensures |word| > 0 ==> r[0] == UpperChar(word[0]) && r[1..] == word[1..]
  {
    if word == [] then "" else [UpperChar(word[0])] + word[1..]
  }

  function CapitalizeAll(words: seq<string>): (r: seq<string>)
    ensures |r| == |words| && forall k :: 0 <= k < |words| ==> r[k] == Capitalize(words[k])
  {
    seq(|words|, k requires 0 <= k < |words| => Capitalize(words[k]))
  }

  /**
   * What `formatStatName` puts at position `i`: a space for a `-`, the
   * upper-case letter at the start of a word, the character itself elsewhere.
   */
  function FormatCharAt(s: string, i: nat): char
    requires i < |s|
  {
    if s[i] == '-' then ' '
    else if i == 0 || s[i - 1] == '-' then UpperChar(s[i])
    else s[i]
  }

  /** Reference definition of `formatStatName`, one character at a time. */
  function FormatByChar(s: string): (r: string)
    ensures |r| == |s| && forall i :: 0 <= i < |s| ==> r[i] == FormatCharAt(s, i)
  {
    seq(|s|, i requires 0 <= i < |s| => FormatCharAt(s, i))
  }

  /**
   * `formatStatName`: split on `-`, capitalize each piece, join with a
   * space. It agrees with the character-by-character definition.
   */
  function FormatStatName(statName: string): (r: string)
    ensures r == FormatByChar(statName)
  {
    SplitCapitalizeJoinByChar(statName);
    Join(CapitalizeAll(Split(statName, '-')), ' ')
  }

  /** Split, capitalize and join computes the character-by-character definition. */
  lemma {:induction false} SplitCapitalizeJoinByChar(s: string)
    ensures Join(CapitalizeAll(Split(s, '-')), ' ') == FormatByChar(s)
    decreases |s|
  {
    if '-' !in s {
      FormatOneWord(s);
    } else {
      var k := IndexOf(s, '-');
      var w, t := s[..k], s[k + 1..];
      assert s == w + ['-'] + t;
      FormatAtFirstDash(w, t);
      SplitCapitalizeJoinByChar(t);
    }
  }

  /** Input without `-`: both definitions capitalize the one word. */
  lemma FormatOneWord(w: string)
    requires '-' !in w
    ensures Join(CapitalizeAll(Split(w, '-')), ' ') == Capitalize(w) == FormatByChar(w)
  {
    SplitNoSep(w, '-');
    assert CapitalizeAll([w]) == [Capitalize(w)];
    forall i | 0 <= i < |w| ensures Capitalize(w)[i] == FormatCharAt(w, i) {
      assert w[i] in w;
      assert i > 0 ==> w[i - 1] in w;
    }
  }

  /** Both definitions turn the first `-` into a space after the capitalized first word. */
  lemma FormatAtFirstDash(w: string, t: string)
    requires '-' !in w
    ensures Join(CapitalizeAll(Split(w + ['-'] + t, '-')), ' ')
         == Capitalize(w) + [' '] + Join(CapitalizeAll(Split(t, '-')), ' ')
    ensures FormatByChar(w + ['-'] + t) == Capitalize(w) + [' '] + FormatByChar(t)
  {
    SplitAtFirst(w, '-', t);
    var pieces := Split(t, '-');
    var caps := CapitalizeAll([w] + pieces);
    assert caps[0] == Capitalize(w);
    assert caps[1..] == CapitalizeAll(pieces);
    FormatOneWord(w);
    ByCharAtFirstDash(w, t);
  }

  lemma ByCharAtFirstDash(w: string, t: string)
    requires '-' !in w
    requires FormatByChar(w) == Capitalize(w)
    ensures FormatByChar(w + ['-'] + t) == Capitalize(w) + [' '] + FormatByChar(t)
  {
    var s := w + ['-'] + t;
    var k := |w|;
    var r := FormatByChar(w) + [' '] + FormatByChar(t);
    forall i | 0 <= i < |s|
      ensures r[i] == FormatCharAt(s, i)
    {
      if i < k {
        assert s[i] == w[i];
        assert i > 0 ==> s[i - 1] == w[i - 1];
        assert r[i] == FormatCharAt(w, i);
      } else if i > k {
        var j := i - k - 1;
        assert r[i] == FormatCharAt(t, j);
        assert t[j] == s[i];
        assert j > 0 ==> t[j - 1] == s[i - 1];
      }
    }
  }

  /** Every `-` becomes one space: the label has the input's length and no `-` left. */
  lemma FormatStatNameShape(s: string)
    ensures |FormatStatName(s)| == |s|
    ensures '-' !in FormatStatName(s)
  {
    var r := FormatStatName(s);
    forall i | 0 <= i < |r| ensures r[i] != '-' {
      assert r[i] == FormatCharAt(s, i);
    }
  }

  /**
   * For a name without spaces, the label's space-separated words are the
   * `-`-separated pieces of the name, each capitalized: one word per piece.
   */
  lemma FormatStatNameWords(s: string)
    requires ' ' !in s
    ensures Split(FormatStatName(s), ' ') == CapitalizeAll(Split(s, '-'))
    ensures |Split(FormatStatName(s), ' ')| == Count(s, '-') + 1
  {
    var pieces := Split(s, '-');
    var caps := CapitalizeAll(pieces);
    forall k | 0 <= k < |caps| ensures ' ' !in caps[k] {
      forall i | 0 <= i < |caps[k]| ensures caps[k][i] != ' ' {
        assert pieces[k][i] in s;
      }
    }
    SplitJoin(caps, ' ');
  }

  // ---------------------------------------------------------------------
  // Total and Power
  // ---------------------------------------------------------------------

  /** `stats.reduce((sum, stat) => sum + stat.base_stat, 0)`, folded from the left. */
  function TotalStats(stats: seq<Stat>): (total: int)
    ensures (forall k :: 0 <= k < |stats| ==> stats[k].baseStat >= 0) ==>
      total >= 0 && forall k :: 0 <= k < |stats| ==> stats[k].baseStat <= total
  {
    if stats == [] then 0
    else
      var prefix := stats[..|stats| - 1];
      assert forall k :: 0 <= k < |prefix| ==> prefix[k] == stats[k];
      TotalStats(prefix) + stats[|stats| - 1].baseStat
  }

  /** The total of a concatenation is the sum of the totals: order of the stats does not matter to the split. */
  lemma {:induction false} TotalStatsConcat(a: seq<Stat>, b: seq<Stat>)
    ensures TotalStats(a + b) == TotalStats(a) + TotalStats(b)
    decreases |b|
  {
    if b != [] {
      var b' := b[..|b| - 1];
      assert (a + b)[..|a + b| - 1] == a + b';
      TotalStatsConcat(a, b');
    } else {
      assert a + b == a;
    }
  }

  /** The total lies between `n * lo` and `n * hi` when every base stat does between `lo` and `hi`. */
  lemma {:induction false} TotalStatsBounds(stats: seq<Stat>, lo: int, hi: int)
    requires forall k :: 0 <= k < |stats| ==> lo <= stats[k].baseStat <= hi
    ensures |stats| * lo <= TotalStats(stats) <= |stats| * hi
  {
    if stats != [] {
      TotalStatsBounds(stats[..|stats| - 1], lo, hi);
      assert |stats| * lo == (|stats| - 1) * lo + lo;
      assert |stats| * hi == (|stats| - 1) * hi + hi;
    }
  }

  /**
   * `Math.floor(totalStats / stats.length)`. With no stats the division is
   * 0 / 0, which shows as NaN; that case is `None`.
   */
  function Power(stats: seq<Stat>): (power: Option<int>)
    ensures power.Some? <==> |stats| > 0
    ensures power.Some? ==> power.value * |stats| <= TotalStats(stats) < (power.value + 1) * |stats|
  {
    if |stats| == 0 then None else Some(TotalStats(stats) / |stats|)
  }

  /** Power, the floored mean, lies between the smallest and the largest base stat. */
  lemma PowerWithinStatRange(stats: seq<Stat>, lo: int, hi: int)
    requires |stats| > 0
    requires forall k :: 0 <= k < |stats| ==> lo <= stats[k].baseStat <= hi
    ensures lo <= Power(stats).value <= hi
  {
    TotalStatsBounds(stats, lo, hi);
    FlooredMeanBetween(TotalStats(stats), |stats|, lo, hi);
  }

  /** A floored quotient `t / n` stays within `[lo, hi]` when `t` lies within `[n * lo, n * hi]`. */
  lemma FlooredMeanBetween(t: int, n: int, lo: int, hi: int)
    requires n > 0 && n * lo <= t <= n * hi
    ensures lo <= t / n <= hi
  {
    var q := t / n;
    assert q * n <= t < (q + 1) * n;
    assert (q + 1 - lo) * n == (q + 1) * n - lo * n;
    assert (hi - q) * n == hi * n - q * n;
    ProductSign(q + 1 - lo, n);
    ProductSign(hi - q, n);
  }

  /** With a positive factor `n`, the sign of `a * n` is the sign of `a`. */
  lemma ProductSign(a: int, n: int)
    requires n > 0
    ensures a * n > 0 ==> a > 0
    ensures a * n >= 0 ==> a >= 0
  {
    if a < 0 {
      assert a * n == -((-a) * n);
    }
  }

  // ---------------------------------------------------------------------
  // Id, height and weight
  // ---------------------------------------------------------------------

  /** `id.toString().padStart(3, '0')`. */
  function PaddedId(id: int): (r: string)
    ensures |r| == if |IntToString(id)| < 3 then 3 else |IntToString(id)|
    ensures r[|r| - |IntToString(id)|..] == IntToString(id)
    ensures forall i :: 0 <= i < |r| - |IntToString(id)| ==> r[i] == '0'
  {
    PadStart(IntToString(id), 3, '0')
  }

  /** A non-negative id shows as at least three digits that still denote the id. */
  lemma PaddedIdDenotesId(id: nat)
    ensures var r := PaddedId(id);
      && |r| == (if |Digits(id)| < 3 then 3 else |Digits(id)|)
      && AllDigits(r)
      && DecimalValue(r) == id
      && r[|r| - |Digits(id)|..] == Digits(id)
  {
    var d := Digits(id);
    DigitsRoundTrip(id);
    if |d| < 3 {
      LeadingZeros(3 - |d|, d);
    }
  }

  /** `(n / 10).toFixed(1)` followed by the unit. */
  function Tenths(n: nat, unit: string): (r: string)
    ensures |r| >= |unit| + 3
    ensures r[|r| - |unit|..] == unit && r[|r| - |unit| - 2] == '.'
    ensures AllDigits(r[..|r| - |unit| - 2]) && IsDigit(r[|r| - |unit| - 1])
  {
    var d := Digits(n / 10);
    var r := d + "." + [DigitChar(n % 10)] + unit;
    assert r[..|d|] == d;
    r
  }

  /**
   * A tenths label reads back as the measurement: whole part, a point, one
   * digit, then the unit, with whole part * 10 + digit equal to the input.
   */
  lemma TenthsReadsBack(n: nat, unit: string)
    ensures var r := Tenths(n, unit); var k := |r| - |unit|;
      && k >= 3
      && r[k..] == unit
      && r[k - 2] == '.'
      && IsDigit(r[k - 1])
      && AllDigits(r[..k - 2])
      && (k - 2 > 1 ==> r[0] != '0')
      && DecimalValue(r[..k - 2]) * 10 + DigitValue(r[k - 1]) == n
  {
    var r := Tenths(n, unit);
    var d := Digits(n / 10);
    assert r == d + "." + [DigitChar(n % 10)] + unit;
    assert r[..|d|] == d;
    DigitsRoundTrip(n / 10);
  }

  /** Height label: decimetres shown as metres, reading back as the stored height. */
  function HeightLabel(p: Pokemon): (r: string)
    ensures var k := |r| - 1;
      k >= 3 && r[k..] == "m" && r[k - 2] == '.' && IsDigit(r[k - 1]) && AllDigits(r[..k - 2])
      && DecimalValue(r[..k - 2]) * 10 + DigitValue(r[k - 1]) == p.height
  {
    TenthsReadsBack(p.height, "m");
    Tenths(p.height, "m")
  }

  /** Weight label: hectograms shown as kilograms, reading back as the stored weight. */
  function WeightLabel(p: Pokemon): (r: string)
    ensures var k := |r| - 2;
      k >= 3 && r[k..] == "kg" && r[k - 2] == '.' && IsDigit(r[k - 1]) && AllDigits(r[..k - 2])
      && DecimalValue(r[..k - 2]) * 10 + DigitValue(r[k - 1]) == p.weight
  {
    TenthsReadsBack(p.weight, "kg");
    Tenths(p.weight, "kg")
  }

  // ---------------------------------------------------------------------
  // Moves and the whole card
  // ---------------------------------------------------------------------

  /** The move list shows at most this many moves (`moves.slice(0, 8)`). */
  const MaxMovesShown: nat := 8

  /** The labels of the listed moves: the first eight, in order, each formatted. */
  function MoveLabels(moves: seq<string>): (labels: seq<string>)
    ensures |labels| == if |moves| < MaxMovesShown then |moves| else MaxMovesShown
    ensures forall k :: 0 <= k < |labels| ==> labels[k] == FormatStatName(moves[k])
  {
    var shown := Take(moves, MaxMovesShown);
    seq(|shown|, k requires 0 <= k < |shown| => FormatStatName(shown[k]))
  }

  datatype StatRow = StatRow(icon: Option<Icon>, caption: string, value: int)
  datatype AbilityRow = AbilityRow(caption: string, hidden: bool)

  /** The values the card displays. */
  datatype Card = Card(
    title: string,
    idLabel: string,
    heightLabel: string,
    weightLabel: string,
    experienceLabel: string,
    types: seq<string>,
    power: Option<int>,
    totalStats: int,
    statRows: seq<StatRow>,
    abilityRows: seq<AbilityRow>,
    moveCount: nat,
    moveLabels: seq<string>)

  /** `PokemonCard`: nothing for a missing record, otherwise the derived values. */
  function RenderCard(pokemon: Option<Pokemon>): (card: Option<Card>)
    ensures card.Some? <==> pokemon.Some?
    ensures card.Some? ==>
      var p, c := pokemon.value, card.value;
      && c.title == p.name
      && c.idLabel == "#" + PaddedId(p.id)
      && c.heightLabel == HeightLabel(p)
      && c.weightLabel == WeightLabel(p)
      && c.experienceLabel == IntToString(p.baseExperience) + " XP"
      && c.types == p.types
      && c.power == Power(p.stats)
      && c.totalStats == TotalStats(p.stats)
      && c.moveCount == |p.moves|
      && c.moveLabels == MoveLabels(p.moves)
      && |c.moveLabels| <= MaxMovesShown
      && |c.moveLabels| <= c.moveCount
      && |c.statRows| == |p.stats|
      && (forall k :: 0 <= k < |p.stats| ==> c.statRows[k].value == p.stats[k].baseStat)
      && (forall k :: 0 <= k < |p.stats| ==>
            c.statRows[k] == StatRow(StatIcon(p.stats[k].name), FormatStatName(p.stats[k].name), p.stats[k].baseStat))
      && |c.abilityRows| == |p.abilities|
      && (forall k :: 0 <= k < |p.abilities| ==>
            c.abilityRows[k] == AbilityRow(FormatStatName(p.abilities[k].name), p.abilities[k].isHidden))
  {
    match pokemon
    case None => None
    case Some(p) =>
      Some(Card(
        p.name,
        "#" + PaddedId(p.id),
        HeightLabel(p),
        WeightLabel(p),
        IntToString(p.baseExperience) + " XP",
        p.types,
        Power(p.stats),
        TotalStats(p.stats),
        seq(|p.stats|, k requires 0 <= k < |p.stats| =>
          StatRow(StatIcon(p.stats[k].name), FormatStatName(p.stats[k].name), p.stats[k].baseStat)),
        seq(|p.abilities|, k requires 0 <= k < |p.abilities| =>
          AbilityRow(FormatStatName(p.abilities[k].name), p.abilities[k].isHidden)),
        |p.moves|,
        MoveLabels(p.moves)))
  }
}
