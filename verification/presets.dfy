/**
 * Gradient presets: the fifteen built-in presets, and the list `usePresets`
 * builds from them and the user's saved gradients, where each saved gradient
 * gets a name no earlier entry uses.
 */
module Presets {

  import opened Base
  import opened Strings
  import opened JsParse
  import opened Fresh

  datatype Preset = Preset(name: string, colors: seq<string>, description: Option<string>)

  /** The fields of a saved gradient the preset list reads; `kind` is the source's `type` and `caption` its `label`. */
  datatype Gradient = Gradient(kind: string, angle: Option<int>, stops: seq<string>, caption: Option<string>)

  const DefaultPresets: seq<Preset> := [
    Preset("Sunset", ["#EE7752", "#E73C7E", "#23A6D5"],
           Some("Warm sunset colors transitioning from orange to pink to blue")),
    Preset("Ocean", ["#0B486B", "#F56217"], Some("Deep ocean blue to warm orange")),
    Preset("Forest", ["#5A3F37", "#2C7744"], Some("Rich brown to forest green")),
    Preset("Aurora", ["#9CECFB", "#65C7F7", "#0052D4"], Some("Northern lights inspired blues")),
    Preset("Candy", ["#FBD3E9", "#BB377D"], Some("Soft pink to deep magenta")),
    Preset("Midnight", ["#0F0F23", "#1E1E3F", "#2D2D5F"], Some("Dark midnight blues")),
    Preset("Sunrise", ["#FF6B6B", "#FFE66D", "#4ECDC4"], Some("Bright sunrise with yellow and teal")),
    Preset("Autumn", ["#D2691E", "#CD853F", "#F4A460"], Some("Warm autumn earth tones")),
    Preset("Spring", ["#98FB98", "#90EE90", "#32CD32"], Some("Fresh spring greens")),
    Preset("Neon", ["#FF1493", "#00FF00", "#00BFFF"], Some("Vibrant neon colors")),
    Preset("Pastel", ["#FFB6C1", "#DDA0DD", "#87CEEB"], Some("Soft pastel colors")),
    Preset("Fire", ["#FF4500", "#FF6347", "#FF8C00"], Some("Hot fire oranges and reds")),
    Preset("Ice", ["#F0F8FF", "#E6E6FA", "#B0E0E6"], Some("Cool ice blues and whites")),
    Preset("Desert", ["#DEB887", "#F4A460", "#D2B48C"], Some("Warm desert sand tones")),
    Preset("Twilight", ["#4B0082", "#8A2BE2", "#9370DB"], Some("Deep purple twilight colors"))
  ]

  const UserDescription := "User saved gradient"

  /** The names a preset list already uses (`allPresets.some(p => p.name === x)`). */
  function NameSet(ps: seq<Preset>): set<string>
  {
    set i | 0 <= i < |ps| :: ps[i].name
  }

  predicate NamesDistinct(ps: seq<Preset>)
  {
    forall i, j :: 0 <= i < j < |ps| ==> ps[i].name != ps[j].name
  }

  const DefaultNames := NameSet(DefaultPresets)

  /** The first and last letters of a non-empty name. */
  function Ends(name: string): (char, char)
    requires |name| > 0
  {
    (name[0], name[|name| - 1])
  }

  /** The position of the built-in preset whose name has these first and last letters. */
  function EndsIndex(ends: (char, char)): int
  {
    match ends
    case ('S', 't') => 0
    case ('O', 'n') => 1
    case ('F', 't') => 2
    case ('A', 'a') => 3
    case ('C', 'y') => 4
    case ('M', 't') => 5
    case ('S', 'e') => 6
    case ('A', 'n') => 7
    case ('S', 'g') => 8
    case ('N', 'n') => 9
    case ('P', 'l') => 10
    case ('F', 'e') => 11
    case ('I', 'e') => 12
    case ('D', 't') => 13
    case ('T', 't') => 14
    case _ => -1
  }

  /** The built-in names are pairwise different. */
  lemma DefaultNamesDistinct()
    ensures NamesDistinct(DefaultPresets)
  {
    // The first and last letters already tell the fifteen names apart.
    var ps := DefaultPresets;
    assert forall i :: 0 <= i < |ps| ==> |ps[i].name| > 0 && EndsIndex(Ends(ps[i].name)) == i;
  }

  /** No built-in name is longer than eight characters. */
  lemma DefaultNamesShort()
    ensures forall n :: n in DefaultNames ==> |n| <= 8
  {
    forall n | n in DefaultNames
      ensures |n| <= 8
    {
      var i :| 0 <= i < |DefaultPresets| && DefaultPresets[i].name == n;
    }
  }

  /**
   * The name a saved gradient asks for: its label when that is non-empty,
   * otherwise "linear (A°)" for a linear gradient (A defaults to 90 only when
   * the angle is absent) and the bare type for any other gradient.
   */
  function DerivedName(g: Gradient): string
  {
    if g.caption.Some? && g.caption.value != "" then g.caption.value
    else if g.kind == "linear" then g.kind + " (" + IntToString(g.angle.GetOr(90)) + "\U{00B0})"
    else g.kind
  }

  /** A gradient without a non-empty label. */
  predicate Unlabelled(g: Gradient)
  {
    g.caption.None? || g.caption.value == ""
  }

  /**
   * For every gradient: a non-empty label is the name; otherwise a linear
   * gradient is named "linear (A°)", where A reads back as its angle (90 when
   * absent), and any other gradient by its bare type.
   */
  lemma DerivedNameCases(g: Gradient)
    ensures !Unlabelled(g) ==> DerivedName(g) == g.caption.value
    ensures Unlabelled(g) && g.kind != "linear" ==> DerivedName(g) == g.kind
    ensures Unlabelled(g) && g.kind == "linear" ==>
              var n := DerivedName(g);
              && |n| >= 11
              && n[..8] == "linear ("
              && n[|n| - 2..] == "\U{00B0})"
              && ParseInt(n[8..|n| - 2], Ten) == Some(g.angle.GetOr(90))
  {
    if Unlabelled(g) && g.kind == "linear" {
      var a := IntToString(g.angle.GetOr(90));
      var n := DerivedName(g);
      assert n == "linear (" + a + "\U{00B0})";
      assert n[8..|n| - 2] == a;
      ParseIntToString(g.angle.GetOr(90), Ten);
    }
  }

  /** An unlabelled linear gradient without an angle is "linear (90°)"; an explicit 0 is kept. */
  lemma DerivedLinearNames(stops: seq<string>)
    ensures DerivedName(Gradient("linear", None, stops, None)) == "linear (90\U{00B0})"
    ensures DerivedName(Gradient("linear", Some(0), stops, Some(""))) == "linear (0\U{00B0})"
  {
    assert NatToString(90) == "90" by {
      assert NatToString(9) == "9";
    }
    assert NatToString(0) == "0";
  }

  /**
   * Reference rule for one saved gradient: a name shared with a built-in
   * preset becomes "name (User)", then "name (User) k"; any other name is
   * kept when free, then becomes "name (k)"; k is the smallest free k >= 1.
   */
  function ChooseName(taken: set<string>, name: string): (r: string)
    ensures r !in taken
  {
    if name in DefaultNames then FirstFree(name + " (User)", " ", "", taken)
    else FirstFree(name, " (", ")", taken)
  }

  /**
   * One collision loop: `start`, then `start + sep + k + suffix` for
   * k = 1, 2, ... until the name is free. The counter never passes
   * |taken| + 1, because the candidates are pairwise different.
   */
  method FreeName(start: string, sep: string, suffix: string, taken: set<string>) returns (r: string)
    ensures IsFirstFree(start, sep, suffix, taken, r)
    ensures r !in taken
  {
    r := start;
    var counter: nat := 1;
    while r in taken
      invariant 1 <= counter <= |taken| + 1
      invariant counter == 1 ==> r == start
      invariant counter > 1 ==> start in taken && r == Candidate(start, sep, suffix, counter - 1)
      invariant forall j: nat :: 1 <= j < counter - 1 ==> Candidate(start, sep, suffix, j) in taken
      decreases |taken| + 1 - counter
    {
      Pigeonhole(start, sep, suffix, taken, counter - 1);
      r := Candidate(start, sep, suffix, counter);
      counter := counter + 1;
    }
  }

  /**
   * The name given to one saved gradient. The first loop always runs; on a
   * built-in name its result is replaced by the "(User)" search. Otherwise
   * the last loop starts from the first loop's free name and stops at once.
   */
  method UniqueName(taken: set<string>, name: string) returns (unique: string)
    ensures unique == ChooseName(taken, name)
  {
    unique := FreeName(name, " (", ")", taken);
    if name in DefaultNames {
      unique := FreeName(name + " (User)", " ", "", taken);
      FirstFreeUnique(name + " (User)", " ", "", taken, unique, ChooseName(taken, name));
    } else {
      FirstFreeUnique(name, " (", ")", taken, unique, ChooseName(taken, name));
    }
  }

  /** Entry `d + i` is the saved gradient `g`, named against every entry before it. */
  predicate SavedEntry(presets: seq<Preset>, d: nat, i: nat, g: Gradient)
  {
    && d + i < |presets|
    && presets[d + i].colors == g.stops
    && presets[d + i].description == Some(UserDescription)
    && presets[d + i].name == ChooseName(NameSet(presets[..d + i]), DerivedName(g))
  }

  /** Pushing the next saved gradient under its chosen name keeps the earlier entries and the distinct names. */
  lemma PushSaved(before: seq<Preset>, d: nat, gs: seq<Gradient>, n: nat, name: string)
    requires n < |gs| && |before| == d + n
    requires forall i :: 0 <= i < n ==> SavedEntry(before, d, i, gs[i])
    requires NamesDistinct(before)
    requires name == ChooseName(NameSet(before), DerivedName(gs[n]))
    ensures var after := before + [Preset(name, gs[n].stops, Some(UserDescription))];
            && after[..d] == before[..d]
            && (forall i :: 0 <= i < n + 1 ==> SavedEntry(after, d, i, gs[i]))
            && NamesDistinct(after)
  {
    var after := before + [Preset(name, gs[n].stops, Some(UserDescription))];
    assert after[..d + n] == before;
    forall i | 0 <= i < n + 1
      ensures SavedEntry(after, d, i, gs[i])
    {
      if i < n {
        assert after[..d + i] == before[..d + i];
        assert after[d + i] == before[d + i];
      }
    }
    forall j | 0 <= j < |before|
      ensures before[j].name != name
    {
      assert before[j].name in NameSet(before);
    }
  }

  /**
   * `usePresets`: the built-in presets, then one entry per saved gradient in
   * order, named against every entry before it. A missing saved list counts
   * as empty.
   */
  method MergePresets(saved: Option<seq<Gradient>>) returns (presets: seq<Preset>)
    ensures var gs := saved.GetOr([]);
            && |presets| == |DefaultPresets| + |gs|
            && presets[..|DefaultPresets|] == DefaultPresets
            && forall i :: 0 <= i < |gs| ==> SavedEntry(presets, |DefaultPresets|, i, gs[i])
    ensures NamesDistinct(presets)
  {
    var gs := saved.GetOr([]);
    var d := |DefaultPresets|;
    presets := DefaultPresets;
    DefaultNamesDistinct();
    for n := 0 to |gs|
      invariant |presets| == d + n
      invariant presets[..d] == DefaultPresets
      invariant forall i :: 0 <= i < n ==> SavedEntry(presets, d, i, gs[i])
      invariant NamesDistinct(presets)
    {
      var name := UniqueName(NameSet(presets), DerivedName(gs[n]));
      PushSaved(presets, d, gs, n, name);
      presets := presets + [Preset(name, gs[n].stops, Some(UserDescription))];
    }
  }

  /** "Sunset" is a built-in name and "Sunset (User)" is not. */
  lemma SunsetTaken()
    ensures "Sunset" in DefaultNames && "Sunset (User)" !in DefaultNames
  {
    assert DefaultPresets[0].name == "Sunset";
    DefaultNamesShort();
  }

  /** A saved "Sunset" next to the built-in one is listed as "Sunset (User)". */
  lemma SunsetBecomesUserCopy(stops: seq<string>)
    ensures ChooseName(DefaultNames, DerivedName(Gradient("linear", None, stops, Some("Sunset"))))
            == "Sunset (User)"
  {
    assert DerivedName(Gradient("linear", None, stops, Some("Sunset"))) == "Sunset";
    SunsetTaken();
    assert "Sunset" + " (User)" == "Sunset (User)";
  }
}
