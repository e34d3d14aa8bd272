/**
 * The password generator's command view: reading a numeric argument with a
 * fallback to the preference, and the colour, label and icon that show a
 * generated password's strength.
 */
module Strength {

  import opened Base
  import opened Strings
  import opened JsParse
  import opened Translations

  /**
   * `parseNumber(val, def)`: `parseInt(val ?? def, 10)`, and `parseInt(def, 10)`
   * when that is NaN (`None`). An empty or non-numeric argument therefore
   * falls back to the preference, which may itself be NaN.
   */
  function ParseNumber(val: Option<string>, def: string): (n: Option<int>)
    ensures val.None? ==> n == ParseInt(def, Ten)
    ensures val.Some? && ParseInt(val.value, Ten).Some? ==> n == ParseInt(val.value, Ten)
    ensures val.Some? && ParseInt(val.value, Ten).None? ==> n == ParseInt(def, Ten)
  {
    var first := ParseInt(val.GetOr(def), Ten);
    if first.None? then ParseInt(def, Ten) else first
  }

  /** A printed integer argument is read back exactly, whatever the preference. */
  lemma ArgumentWins(k: int, def: string)
    ensures ParseNumber(Some(IntToString(k)), def) == Some(k)
  {
    ParseIntToString(k, Ten);
  }

  /** Without an argument the printed preference is used. */
  lemma PreferenceWhenAbsent(d: int)
    ensures ParseNumber(None, IntToString(d)) == Some(d)
  {
    ParseIntToString(d, Ten);
  }

  /** An empty argument is not a number, so the preference is used (`??` keeps "", `parseInt` rejects it). */
  lemma PreferenceWhenEmpty(d: int)
    ensures ParseNumber(Some(""), IntToString(d)) == Some(d)
  {
    assert TrimStart("") == "";
    assert ParseInt("", Ten).None?;
    ParseIntToString(d, Ten);
  }

  /** Text after the leading digits is ignored: "5 words" reads as 5. */
  lemma TrailingTextIgnored(n: nat, rest: string, def: string)
    requires |rest| == 0 || !IsDigit(rest[0])
    ensures ParseNumber(Some(NatToString(n) + rest), def) == Some(n)
  {
    DecimalOfNatToString(n);
    ParseDigitPrefix(NatToString(n), rest, Ten);
  }

  // ---------------------------------------------------------------------
  // Colour and icon
  // ---------------------------------------------------------------------

  datatype Color = Green | Orange | Red

  /** How good a colour is: red, then orange, then green. */
  function ColorRank(c: Color): nat
  {
    match c
    case Red => 0
    case Orange => 1
    case Green => 2
  }

  /** `getStrengthColor`: green from 4, orange from 3, red below. */
  function StrengthColor(strength: real): (c: Color)
    ensures c == Green <==> strength >= 4.0
    ensures c == Red <==> strength < 3.0
  {
    if strength >= 4.0 then Green else if strength >= 3.0 then Orange else Red
  }

  /** A higher strength never gets a worse colour. */
  lemma ColorMonotone(s1: real, s2: real)
    requires s1 <= s2
    ensures ColorRank(StrengthColor(s1)) <= ColorRank(StrengthColor(s2))
  {
  }

  datatype Icon = CheckCircle | Circle

  /** The accessory icon: a check mark from strength 3 on. */
  function StrengthIcon(strength: real): Icon
  {
    if strength >= 3.0 then CheckCircle else Circle
  }

  /** The check mark shows exactly when the colour is not red. */
  lemma CheckMarkIffNotRed(strength: real)
    ensures StrengthIcon(strength) == CheckCircle <==> StrengthColor(strength) != Red
  {
  }

  // ---------------------------------------------------------------------
  // Label
  // ---------------------------------------------------------------------

  datatype Band = VeryStrong | StrongBand | Moderate | Weak

  function BandRank(b: Band): nat
  {
    match b
    case Weak => 0
    case Moderate => 1
    case StrongBand => 2
    case VeryStrong => 3
  }

  /** The entropy band `getStrengthLabel` picks: from 60, 40 and 25 bits. */
  function EntropyBand(entropy: real): (b: Band)
    ensures b == VeryStrong <==> entropy >= 60.0
    ensures b == Weak <==> entropy < 25.0
    ensures b == StrongBand ==> 40.0 <= entropy < 60.0
    ensures b == Moderate ==> 25.0 <= entropy < 40.0
  {
    if entropy >= 60.0 then VeryStrong
    else if entropy >= 40.0 then StrongBand
    else if entropy >= 25.0 then Moderate
    else Weak
  }

  /** More entropy never gets a weaker label. */
  lemma BandMonotone(e1: real, e2: real)
    requires e1 <= e2
    ensures BandRank(EntropyBand(e1)) <= BandRank(EntropyBand(e2))
  {
  }

  /** The translation key of each band. */
  function BandKey(b: Band): (key: Key)
    ensures IsStrengthKey(key)
  {
    match b
    case VeryStrong => StrengthVeryStrong
    case StrongBand => StrengthStrong
    case Moderate => StrengthModerate
    case Weak => StrengthWeak
  }

  /** `getStrengthLabel(entropy)` in language `lang`. */
  function StrengthLabel(entropy: real, lang: string): (r: Option<string>)
    ensures r.None? <==> lang != "en" && lang != "zh"
  {
    T(Messages, BandKey(EntropyBand(entropy)), lang, None)
  }

  /** The English names of the bands. */
  function EnglishName(b: Band): string
  {
    match b
    case VeryStrong => "Very Strong"
    case StrongBand => "Strong"
    case Moderate => "Moderate"
    case Weak => "Weak"
  }

  /** The Chinese names of the bands. */
  function ChineseName(b: Band): string
  {
    match b
    case VeryStrong => "极高强度"
    case StrongBand => "高强度"
    case Moderate => "中等强度"
    case Weak => "弱强度"
  }

  /** The tables name each band as `EnglishName` and `ChineseName` do. */
  lemma BandNames(b: Band)
    ensures EnglishText(BandKey(b)) == EnglishName(b)
    ensures ChineseText(BandKey(b)) == ChineseName(b)
  {
  }

  lemma BandLookupEnglish(b: Band)
    ensures Lookup(Messages, BandKey(b), "en") == Some(EnglishName(b))
  {
    LookupEnglishText(BandKey(b));
    BandNames(b);
  }

  lemma BandLookupChinese(b: Band)
    ensures Lookup(Messages, BandKey(b), "zh") == Some(ChineseName(b))
  {
    LookupChineseText(BandKey(b));
    BandNames(b);
  }

  /** In English the label is the band's English name. */
  lemma LabelEnglish(entropy: real)
    ensures StrengthLabel(entropy, "en") == Some(EnglishName(EntropyBand(entropy)))
  {
    BandLookupEnglish(EntropyBand(entropy));
  }

  /** In Chinese the label is the band's Chinese name. */
  lemma LabelChinese(entropy: real)
    ensures StrengthLabel(entropy, "zh") == Some(ChineseName(EntropyBand(entropy)))
  {
    BandLookupChinese(EntropyBand(entropy));
  }

  /** Different bands read differently in both languages. */
  lemma LabelsTellBandsApart(e1: real, e2: real, lang: string)
    requires lang == "en" || lang == "zh"
    requires EntropyBand(e1) != EntropyBand(e2)
    ensures StrengthLabel(e1, lang) != StrengthLabel(e2, lang)
  {
    LabelEnglish(e1);
    LabelEnglish(e2);
    LabelChinese(e1);
    LabelChinese(e2);
  }
}
