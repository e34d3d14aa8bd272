/**
 * The reverse-shell generator: `{IP}`/`{PORT}` substitution over the shell
 * template table, the IP and port validators, grouping by subcategory, the
 * OS filter and tag colours, the submit handler's validation order and the
 * port-increment action. The template table itself is a parameter.
 */
module ReverseShell {

  import opened Base
  import opened Strings
  import opened JsParse
  import opened Seqs

  datatype Category = Reverse | Bind | Msfvenom

  /** One shell template; `kind` is the source's `type` field. */
  datatype ShellTemplate = ShellTemplate(
    kind: string,
    name: string,
    icon: string,
    command: string,
    description: string,
    category: Category,
    subcategory: string,
    os: seq<string>,
    listener: Option<string>)

  const IpToken := Placeholder("IP")
  const PortToken := Placeholder("PORT")

  // ---------------------------------------------------------------------
  // Placeholder substitution
  // ---------------------------------------------------------------------

  /** Every `{IP}`, then every `{PORT}`, replaced in one text. */
  function Fill(text: string, ip: string, port: string): string
    requires NoDollar(ip) && NoDollar(port)
  {
    ReplaceAll(ReplaceAll(text, IpToken, ip), PortToken, port)
  }

  /** One template with its command and listener filled in. */
  function Instantiate(t: ShellTemplate, ip: string, port: string): (r: ShellTemplate)
    requires NoDollar(ip) && NoDollar(port)
    ensures r.(command := t.command, listener := t.listener) == t
    ensures r.listener.None? <==> t.listener.None?
  {
    var listener := match t.listener
      case None => None
      case Some(l) => Some(Fill(l, ip, port));
    t.(command := Fill(t.command, ip, port), listener := listener)
  }

  /** `generateAllCommands`: the whole table instantiated, in table order. */
  function GenerateAllCommands(templates: seq<ShellTemplate>, ip: string, port: string): (r: seq<ShellTemplate>)
    requires NoDollar(ip) && NoDollar(port)
    ensures |r| == |templates|
    ensures forall i :: 0 <= i < |r| ==>
      r[i].(command := templates[i].command, listener := templates[i].listener) == templates[i]
    ensures forall i :: 0 <= i < |r| ==> (r[i].listener.None? <==> templates[i].listener.None?)
  {
    seq(|templates|, i requires 0 <= i < |templates| => Instantiate(templates[i], ip, port))
  }

  /** Filling with the placeholders themselves gives the table back. */
  lemma GenerateWithTokensIsIdentity(templates: seq<ShellTemplate>)
    ensures GenerateAllCommands(templates, IpToken, PortToken) == templates
  {
    var r := GenerateAllCommands(templates, IpToken, PortToken);
    forall i | 0 <= i < |templates|
      ensures r[i] == templates[i]
    {
      var t := templates[i];
      ReplaceAllSelf(t.command, IpToken);
      ReplaceAllSelf(t.command, PortToken);
      if t.listener.Some? {
        ReplaceAllSelf(t.listener.value, IpToken);
        ReplaceAllSelf(t.listener.value, PortToken);
      }
    }
  }

  /** A text with neither placeholder is left as it is. */
  lemma FillWithoutTokens(text: string, ip: string, port: string)
    requires NoDollar(ip) && NoDollar(port)
    requires !Contains(text, IpToken) && !Contains(text, PortToken)
    ensures Fill(text, ip, port) == text
  {
    ReplaceAllAbsent(text, IpToken, ip);
    ReplaceAllAbsent(text, PortToken, port);
  }

  /**
   * Neither placeholder survives filling when `ip` and `port` are brace-free
   * and are not pieces of the words "IP" and "PORT".
   */
  lemma FillLeavesNoToken(text: string, ip: string, port: string)
    requires NoDollar(ip) && NoDollar(port)
    requires Braceless(ip) && Braceless(port)
    requires !Contains("IP", ip) && !Contains("IP", port) && !Contains("PORT", port)
    ensures !Contains(Fill(text, ip, port), IpToken)
    ensures !Contains(Fill(text, ip, port), PortToken)
  {
    var once := ReplaceAll(text, IpToken, ip);
    ReplaceAllLeavesNoPlaceholder(text, IpToken, ip, "IP");
    ReplaceAllLeavesNoPlaceholder(once, PortToken, port, "IP");
    ReplaceAllLeavesNoPlaceholder(once, PortToken, port, "PORT");
  }

  /** The same for every command and listener of the generated list. */
  lemma GenerateLeavesNoToken(templates: seq<ShellTemplate>, ip: string, port: string)
    requires NoDollar(ip) && NoDollar(port)
    requires Braceless(ip) && Braceless(port)
    requires !Contains("IP", ip) && !Contains("IP", port) && !Contains("PORT", port)
    ensures var r := GenerateAllCommands(templates, ip, port);
            forall i :: 0 <= i < |r| ==>
              && !Contains(r[i].command, IpToken) && !Contains(r[i].command, PortToken)
              && (r[i].listener.Some? ==>
                    !Contains(r[i].listener.value, IpToken) && !Contains(r[i].listener.value, PortToken))
  {
    forall i | 0 <= i < |templates|
      ensures !Contains(Fill(templates[i].command, ip, port), IpToken)
      ensures !Contains(Fill(templates[i].command, ip, port), PortToken)
      ensures templates[i].listener.Some? ==>
        !Contains(Fill(templates[i].listener.value, ip, port), IpToken)
        && !Contains(Fill(templates[i].listener.value, ip, port), PortToken)
    {
      FillLeavesNoToken(templates[i].command, ip, port);
      if templates[i].listener.Some? {
        FillLeavesNoToken(templates[i].listener.value, ip, port);
      }
    }
  }

  /**
   * Brace-free values alone are not enough: the value "I" turns the text
   * "{{IP}P}" into "{IP}".
   */
  lemma BraceFreeIsNotEnough()
    ensures Braceless("I") && Braceless("1") && NoDollar("I") && NoDollar("1")
    ensures Contains(Fill("{{IP}P}", "I", "1"), IpToken)
  {
    assert IpToken == "{IP}";
    assert PortToken == "{PORT}";
    var s := "{{IP}P}";
    assert s[..4][1] != IpToken[1];
    assert s[1..] == "{IP}P}";
    assert s[1..][..4] == IpToken;
    assert s[1..][4..] == "P}";
    assert ReplaceAll("P}", IpToken, "I") == "P}";
    assert ReplaceAll(s[1..], IpToken, "I") == "IP}";
    assert ReplaceAll(s, IpToken, "I") == "{IP}";
    assert ReplaceAll("{IP}", PortToken, "1") == "{IP}";
    assert OccursAt("{IP}", IpToken, 0);
  }

  // ---------------------------------------------------------------------
  // IP validation
  // ---------------------------------------------------------------------

  /**
   * The regular expression `^(\d{1,3}\.){3}\d{1,3}$` as a recognizer with
   * `groups` "digits then dot" groups before the last digit group. A digit
   * and the dot never overlap, so the longest digit run is the only way to
   * match each group.
   */
  predicate MatchesIpPattern(s: string, groups: nat)
    decreases groups
  {
    var d := DigitRun(s, 10);
    && 1 <= d <= 3
    && if groups == 0 then d == |s|
       else d < |s| && s[d] == '.' && MatchesIpPattern(s[d + 1..], groups - 1)
  }

  predicate InOctetRange(n: Option<int>)
  {
    n.Some? && 0 <= n.value <= 255
  }

  /** `isValidIP`: the pattern, then `parseInt` of every dot-separated part within 0..255. */
  predicate IsValidIP(ip: string)
  {
    && MatchesIpPattern(ip, 3)
    && var parts := Split(ip, '.');
       forall i :: 0 <= i < |parts| ==> InOctetRange(ParseInt(parts[i], Unspecified))
  }

  /** One to three ASCII digits; leading zeros are allowed. */
  predicate DigitGroup(p: string)
  {
    1 <= |p| <= 3 && AllDigits(p)
  }

  /** Reference reading: four dot-separated digit groups, each worth at most 255. */
  predicate DottedQuad(s: string)
  {
    var parts := Split(s, '.');
    |parts| == 4 && forall i :: 0 <= i < 4 ==> DigitGroup(parts[i]) && DecimalValue(parts[i]) <= 255
  }

  lemma DigitRunIsDigits(s: string)
    ensures forall i :: 0 <= i < DigitRun(s, 10) ==> IsDigit(s[i])
    ensures DigitRun(s, 10) < |s| ==> !IsDigit(s[DigitRun(s, 10)])
  {
  }

  predicate AllDigitGroups(parts: seq<string>)
  {
    forall i :: 0 <= i < |parts| ==> DigitGroup(parts[i])
  }

  lemma AllDigitGroupsCons(p: string, rest: seq<string>)
    ensures AllDigitGroups([p] + rest) <==> DigitGroup(p) && AllDigitGroups(rest)
  {
    var all := [p] + rest;
    assert all[0] == p;
    assert forall i :: 0 <= i < |rest| ==> all[i + 1] == rest[i];
    if DigitGroup(p) && AllDigitGroups(rest) {
      forall i | 0 <= i < |all|
        ensures DigitGroup(all[i])
      {
        if i > 0 {
          assert all[i] == rest[i - 1];
        }
      }
    }
  }

  /** The text is one digit run: it matches only without dot groups, and it is a single piece. */
  lemma PatternWhole(s: string, g: nat)
    requires DigitRun(s, 10) == |s|
    ensures MatchesIpPattern(s, g) <==> |Split(s, '.')| == g + 1 && AllDigitGroups(Split(s, '.'))
  {
    DigitRunIsDigits(s);
    assert AllDigits(s);
    SplitWithout(s, '.');
    var parts := Split(s, '.');
    assert parts == [s] && parts[0] == s;
    assert AllDigitGroups(parts) <==> DigitGroup(s);
  }

  /** A digit run stopped by a dot: one digit group, then the rest of the text. */
  lemma PatternAtDot(s: string, g: nat)
    requires DigitRun(s, 10) < |s| && s[DigitRun(s, 10)] == '.'
    ensures var d := DigitRun(s, 10);
            var tail := s[d + 1..];
            && (MatchesIpPattern(s, g) <==> 1 <= d <= 3 && g > 0 && MatchesIpPattern(tail, g - 1))
            && (|Split(s, '.')| == g + 1 && AllDigitGroups(Split(s, '.')) <==>
                  1 <= d <= 3 && g > 0 && |Split(tail, '.')| == g && AllDigitGroups(Split(tail, '.')))
  {
    var d := DigitRun(s, 10);
    DigitRunIsDigits(s);
    var head, tail := s[..d], s[d + 1..];
    assert NoChar(head, '.');
    assert s == head + ['.'] + tail;
    SplitAfterPiece(head, '.', tail);
    assert AllDigits(head);
    AllDigitGroupsCons(head, Split(tail, '.'));
  }

  /** A digit run stopped by anything else: no match, and the first piece is no digit group. */
  lemma PatternAtOther(s: string, g: nat)
    requires DigitRun(s, 10) < |s| && s[DigitRun(s, 10)] != '.'
    ensures !MatchesIpPattern(s, g)
    ensures !AllDigitGroups(Split(s, '.'))
  {
    var d := DigitRun(s, 10);
    DigitRunIsDigits(s);
    assert NoChar(s[..d + 1], '.');
    SplitHead(s, '.', d);
    var parts := Split(s, '.');
    assert !AllDigits(parts[0]);
    assert !DigitGroup(parts[0]);
  }

  /** The pattern with `g` dot groups holds exactly when the text splits into `g + 1` digit groups. */
  lemma {:induction false} PatternIsSplit(s: string, g: nat)
    ensures MatchesIpPattern(s, g) <==> |Split(s, '.')| == g + 1 && AllDigitGroups(Split(s, '.'))
    decreases g
  {
    var d := DigitRun(s, 10);
    if d == |s| {
      PatternWhole(s, g);
    } else if s[d] == '.' {
      PatternAtDot(s, g);
      if g > 0 {
        PatternIsSplit(s[d + 1..], g - 1);
      }
    } else {
      PatternAtOther(s, g);
    }
  }

  /** `isValidIP` accepts exactly the dotted quads, leading zeros included. */
  lemma IsValidIPIff(ip: string)
    ensures IsValidIP(ip) <==> DottedQuad(ip)
  {
    var parts := Split(ip, '.');
    PatternIsSplit(ip, 3);
    if MatchesIpPattern(ip, 3) {
      forall i | 0 <= i < |parts|
        ensures ParseInt(parts[i], Unspecified) == Some(DecimalValue(parts[i]))
      {
        ParseDigits(parts[i], Unspecified);
      }
    }
  }

  predicate DigitsAndDots(s: string)
  {
    forall i :: 0 <= i < |s| ==> IsDigit(s[i]) || s[i] == '.'
  }

  /** A valid address is made of digits and dots only. */
  lemma {:induction false} PatternChars(s: string, g: nat)
    requires MatchesIpPattern(s, g)
    ensures |s| >= 1 && DigitsAndDots(s)
    decreases g
  {
    DigitRunIsDigits(s);
    var d := DigitRun(s, 10);
    if g > 0 {
      PatternChars(s[d + 1..], g - 1);
      DigitsAndDotsAround(s, d);
    }
  }

  /** Digits up to position `d`, a dot at `d`, and digits and dots after it. */
  lemma DigitsAndDotsAround(s: string, d: nat)
    requires d < |s| && s[d] == '.'
    requires forall i :: 0 <= i < d ==> IsDigit(s[i])
    requires DigitsAndDots(s[d + 1..])
    ensures DigitsAndDots(s)
  {
    forall i | d < i < |s|
      ensures IsDigit(s[i]) || s[i] == '.'
    {
      assert s[i] == s[d + 1..][i - d - 1];
    }
  }

  /** Digits and dots carry no brace and no `$`. */
  lemma DigitsAndDotsArePlain(s: string)
    requires DigitsAndDots(s)
    ensures Braceless(s) && NoDollar(s)
  {
  }

  /** A text whose first character does not occur in `w` is no piece of `w`. */
  lemma NotPieceOf(w: string, q: string)
    requires |q| >= 1 && forall i :: 0 <= i < |w| ==> w[i] != q[0]
    ensures !Contains(w, q)
  {
    forall k | 0 <= k <= |w| - |q|
      ensures !OccursAt(w, q, k)
    {
      assert w[k..k + |q|][0] == w[k];
    }
  }

  // ---------------------------------------------------------------------
  // Port validation and increment
  // ---------------------------------------------------------------------

  /** `isValidPort`: `parseInt` gives a number in 1..65535. */
  predicate IsValidPort(port: string)
  {
    var n := ParseInt(port, Unspecified);
    n.Some? && 1 <= n.value <= 65535
  }

  /** A printed integer is a valid port exactly when it lies in 1..65535. */
  lemma ValidPortOfNumber(n: int)
    ensures IsValidPort(IntToString(n)) <==> 1 <= n <= 65535
  {
    ParseIntToString(n, Unspecified);
  }

  /** Text after the digits is ignored, so "80abc" is accepted as port 80. */
  lemma PortIgnoresTrailingText(digits: string, rest: string)
    requires |digits| >= 1 && AllDigits(digits)
    requires |rest| == 0 || !IsDigit(rest[0])
    requires !HasHexPrefix(digits + rest)
    ensures IsValidPort(digits + rest) <==> 1 <= DecimalValue(digits) <= 65535
  {
    ParseDigitPrefix(digits, rest, Unspecified);
  }

  lemma TrailingTextExample()
    ensures IsValidPort("80abc")
  {
    assert "80abc" == "80" + "abc";
    assert DecimalValue("80") == 80 by {
      assert "80"[..1] == "8";
    }
    PortIgnoresTrailingText("80", "abc");
  }

  /**
   * `incrementPort`: one more than the parsed port while it is below 65535;
   * otherwise, or when the text does not parse, the text is kept.
   */
  function IncrementPort(port: string): (r: string)
    ensures ParseInt(port, Unspecified).None? ==> r == port
    ensures ParseInt(port, Unspecified).Some? && ParseInt(port, Unspecified).value < 65535 ==>
      ParseInt(r, Unspecified) == Some(ParseInt(port, Unspecified).value + 1)
    ensures ParseInt(port, Unspecified).Some? && ParseInt(port, Unspecified).value >= 65535 ==> r == port
  {
    var parsed := ParseInt(port, Unspecified);
    if parsed.Some? && parsed.value < 65535 then
      ParseIntToString(parsed.value + 1, Unspecified);
      IntToString(parsed.value + 1)
    else port
  }

  /** The action never produces a port above 65535 that was not already there. */
  lemma IncrementNeverExceedsMax(port: string)
    ensures var r := IncrementPort(port);
            r == port || (ParseInt(r, Unspecified).Some? && ParseInt(r, Unspecified).value <= 65535)
  {
  }

  /** A valid port below the maximum stays valid after the increment. */
  lemma IncrementKeepsValid(port: string)
    requires IsValidPort(port) && ParseInt(port, Unspecified).value < 65535
    ensures IsValidPort(IncrementPort(port))
  {
  }

  // ---------------------------------------------------------------------
  // Submitting the form
  // ---------------------------------------------------------------------

  datatype Config = Config(ip: string, port: string)

  datatype FormErrors = FormErrors(ipError: Option<string>, portError: Option<string>)

  /** What a submit leaves behind: the error texts, the saved config and the page shown next. */
  datatype SubmitOutcome = SubmitOutcome(errors: FormErrors, saved: Option<Config>, shown: Option<Config>)

  const IpErrorText := "Invalid IP address format"
  const PortErrorText := "Port must be between 1-65535"

  /** `handleSubmit`: the IP is checked first, then the port; only a fully valid form is saved and shown. */
  function HandleSubmit(errors: FormErrors, values: Config): (r: SubmitOutcome)
    ensures r.saved.Some? <==> IsValidIP(values.ip) && IsValidPort(values.port)
    ensures r.saved == r.shown
    ensures r.saved.Some? ==> r.saved.value == values && r.errors == FormErrors(None, None)
    ensures !IsValidIP(values.ip) ==> r.errors == errors.(ipError := Some(IpErrorText))
    ensures IsValidIP(values.ip) && !IsValidPort(values.port) ==>
      r.errors == errors.(portError := Some(PortErrorText))
  {
    if !IsValidIP(values.ip) then
      SubmitOutcome(errors.(ipError := Some(IpErrorText)), None, None)
    else if !IsValidPort(values.port) then
      SubmitOutcome(errors.(portError := Some(PortErrorText)), None, None)
    else
      SubmitOutcome(FormErrors(None, None), Some(values), Some(values))
  }

  /** With both fields wrong only the IP error is raised; the port error stays as it was. */
  lemma IpCheckedFirst(errors: FormErrors, values: Config)
    requires !IsValidIP(values.ip) && !IsValidPort(values.port)
    ensures HandleSubmit(errors, values).errors.portError == errors.portError
    ensures HandleSubmit(errors, values).errors.ipError == Some(IpErrorText)
  {
  }

  /**
   * A submitted address and an all-digit port leave no placeholder in any
   * generated command or listener.
   */
  lemma SubmittedValuesFillEverything(templates: seq<ShellTemplate>, values: Config)
    requires HandleSubmit(FormErrors(None, None), values).shown.Some?
    requires |values.port| >= 1 && AllDigits(values.port)
    ensures NoDollar(values.ip) && NoDollar(values.port)
    ensures var r := GenerateAllCommands(templates, values.ip, values.port);
            forall i :: 0 <= i < |r| ==>
              !Contains(r[i].command, IpToken) && !Contains(r[i].command, PortToken)
  {
    assert MatchesIpPattern(values.ip, 3);
    PatternFillsEverything(templates, values.ip, values.port);
  }

  /**
   * The port check does not keep `$` out of the port: digits in range
   * followed by a `$` pass it, so such a port lies outside what `Fill`
   * accepts.
   */
  lemma DollarPortPasses(digits: string, rest: string)
    requires |digits| >= 1 && AllDigits(digits) && 1 <= DecimalValue(digits) <= 65535
    requires |rest| >= 1 && rest[0] == '$'
    ensures IsValidPort(digits + rest) && !NoDollar(digits + rest)
  {
    assert (digits + rest)[|digits|] == '$';
    assert !HasHexPrefix(digits + rest) by {
      if |digits| >= 2 {
        assert (digits + rest)[1] == digits[1];
      } else {
        assert (digits + rest)[1] == '$';
      }
    }
    PortIgnoresTrailingText(digits, rest);
  }

  /** "80$&" is a valid port that holds a `$`. */
  lemma DollarPortExample()
    ensures IsValidPort("80$&") && !NoDollar("80$&")
  {
    assert "80$&" == "80" + "$&";
    assert DecimalValue("80") == 80 by {
      assert "80"[..1] == "8";
    }
    DollarPortPasses("80", "$&");
  }

  /** An address matching the pattern and an all-digit port leave no placeholder behind. */
  lemma PatternFillsEverything(templates: seq<ShellTemplate>, ip: string, port: string)
    requires MatchesIpPattern(ip, 3)
    requires |port| >= 1 && AllDigits(port)
    ensures NoDollar(ip) && NoDollar(port)
    ensures var r := GenerateAllCommands(templates, ip, port);
            forall i :: 0 <= i < |r| ==>
              !Contains(r[i].command, IpToken) && !Contains(r[i].command, PortToken)
  {
    PatternChars(ip, 3);
    DigitsAndDotsArePlain(ip);
    DigitsAndDotsArePlain(port);
    NotPieceOf("IP", ip);
    NotPieceOf("IP", port);
    NotPieceOf("PORT", port);
    GenerateLeavesNoToken(templates, ip, port);
  }

  // ---------------------------------------------------------------------
  // OS filter and tag colours
  // ---------------------------------------------------------------------

  const AllSystems := "all"

  function RunsOn(os: string): ShellTemplate -> bool
  {
    (c: ShellTemplate) => os in c.os
  }

  /** The OS dropdown: "all" keeps the list, any other value keeps the commands listing that OS. */
  function FilterByOs(cmds: seq<ShellTemplate>, osFilter: string): (r: seq<ShellTemplate>)
    ensures osFilter == AllSystems ==> r == cmds
    ensures osFilter != AllSystems ==> forall c :: c in r <==> c in cmds && osFilter in c.os
  {
    if osFilter == AllSystems then cmds else Filter(cmds, RunsOn(osFilter))
  }

  /** Each command is kept as often as it occurs when it runs on the chosen OS, and never otherwise. */
  lemma FilterByOsCount(cmds: seq<ShellTemplate>, osFilter: string, c: ShellTemplate)
    requires osFilter != AllSystems
    ensures multiset(FilterByOs(cmds, osFilter))[c] == if osFilter in c.os then multiset(cmds)[c] else 0
  {
    FilterCount(cmds, RunsOn(osFilter), c);
  }

  /** Filtering a concatenation filters each part in place, so the input order is kept. */
  lemma FilterByOsConcat(xs: seq<ShellTemplate>, ys: seq<ShellTemplate>, osFilter: string)
    ensures FilterByOs(xs + ys, osFilter) == FilterByOs(xs, osFilter) + FilterByOs(ys, osFilter)
  {
    if osFilter != AllSystems {
      FilterConcat(xs, ys, RunsOn(osFilter));
    }
  }

  const DefaultTagColor := "#808080"

  /** `getOSTagColor`. */
  function OsTagColor(os: string): (color: string)
    ensures color == DefaultTagColor <==> os != "linux" && os != "windows" && os != "mac"
  {
    match os
    case "linux" => "#FFA500"
    case "windows" => "#0078D4"
    case "mac" => "#000000"
    case _ => DefaultTagColor
  }

  /** The three known systems get three different colours. */
  lemma OsTagColorsDistinct(a: string, b: string)
    requires a in ["linux", "windows", "mac"] && b in ["linux", "windows", "mac"]
    requires a != b
    ensures OsTagColor(a) != OsTagColor(b)
  {
  }

  // ---------------------------------------------------------------------
  // Grouping by subcategory
  // ---------------------------------------------------------------------

  /** The groups in key insertion order, as `Object.entries` lists them. */
  type Groups = seq<(string, seq<ShellTemplate>)>

  predicate DistinctKeys(groups: Groups)
  {
    forall i, j :: 0 <= i < j < |groups| ==> groups[i].0 != groups[j].0
  }

  function KeySet(groups: Groups): set<string>
  {
    set i | 0 <= i < |groups| :: groups[i].0
  }

  lemma KeySetCons(g: (string, seq<ShellTemplate>), groups: Groups)
    ensures KeySet([g] + groups) == {g.0} + KeySet(groups)
  {
    var all := [g] + groups;
    forall k | k in KeySet(all)
      ensures k in {g.0} + KeySet(groups)
    {
      var i :| 0 <= i < |all| && all[i].0 == k;
      if i > 0 {
        assert groups[i - 1].0 == k;
      }
    }
    forall k | k in KeySet(groups)
      ensures k in KeySet(all)
    {
      var i :| 0 <= i < |groups| && groups[i].0 == k;
      assert all[i + 1].0 == k;
    }
    assert all[0].0 == g.0;
  }

  function Subcategories(cmds: seq<ShellTemplate>): set<string>
  {
    set c | c in cmds :: c.subcategory
  }

  function TotalSize(groups: Groups): nat
  {
    if |groups| == 0 then 0 else |groups[0].1| + TotalSize(groups[1..])
  }

  function InSubcategory(k: string): ShellTemplate -> bool
  {
    (c: ShellTemplate) => c.subcategory == k
  }

  /** One `forEach` step: push onto the command's group, opening the group at the end when it is new. */
  function AddToGroup(groups: Groups, c: ShellTemplate): (r: Groups)
    requires DistinctKeys(groups)
    ensures |r| == if c.subcategory in KeySet(groups) then |groups| else |groups| + 1
    ensures forall i :: 0 <= i < |groups| ==>
      r[i] == (groups[i].0, groups[i].1 + (if groups[i].0 == c.subcategory then [c] else []))
    ensures |r| > |groups| ==> r[|groups|] == (c.subcategory, [c])
    ensures TotalSize(r) == TotalSize(groups) + 1
    decreases |groups|
  {
    if |groups| == 0 then
      [(c.subcategory, [c])]
    else if groups[0].0 == c.subcategory then
      var r := [(groups[0].0, groups[0].1 + [c])] + groups[1..];
      assert c.subcategory in KeySet(groups);
      forall i | 1 <= i < |groups|
        ensures r[i] == (groups[i].0, groups[i].1 + (if groups[i].0 == c.subcategory then [c] else []))
      {
        assert r[i] == groups[i] && groups[i].0 != groups[0].0;
        assert groups[i].1 + [] == groups[i].1;
      }
      assert r[1..] == groups[1..];
      r
    else
      var rest := AddToGroup(groups[1..], c);
      var r := [groups[0]] + rest;
      assert r[1..] == rest;
      assert r[0] == (groups[0].0, groups[0].1 + []) by {
        assert groups[0].1 + [] == groups[0].1;
      }
      forall i | 1 <= i < |groups|
        ensures r[i] == (groups[i].0, groups[i].1 + (if groups[i].0 == c.subcategory then [c] else []))
      {
        assert r[i] == rest[i - 1] && groups[i] == groups[1..][i - 1];
      }
      KeySetCons(groups[0], groups[1..]);
      assert groups == [groups[0]] + groups[1..];
      r
  }

  /** The step keeps the keys distinct and adds the command's subcategory to them. */
  lemma AddToGroupKeys(groups: Groups, c: ShellTemplate)
    requires DistinctKeys(groups)
    ensures DistinctKeys(AddToGroup(groups, c))
    ensures KeySet(AddToGroup(groups, c)) == KeySet(groups) + {c.subcategory}
  {
    var r := AddToGroup(groups, c);
    assert forall i :: 0 <= i < |groups| ==> r[i].0 == groups[i].0;
    KeysOfExtension(groups, r, c.subcategory);
  }

  /**
   * Keys of a list that keeps the keys of `groups` in place and, when `k` is
   * not among them, appends one group for `k`.
   */
  lemma KeysOfExtension(groups: Groups, r: Groups, k: string)
    requires DistinctKeys(groups)
    requires |r| == if k in KeySet(groups) then |groups| else |groups| + 1
    requires forall i :: 0 <= i < |groups| ==> r[i].0 == groups[i].0
    requires |r| > |groups| ==> r[|groups|].0 == k
    ensures DistinctKeys(r)
    ensures KeySet(r) == KeySet(groups) + {k}
  {
    forall i, j | 0 <= i < j < |r|
      ensures r[i].0 != r[j].0
    {
      if j == |groups| {
        assert groups[i].0 in KeySet(groups);
      }
    }
    forall x | x in KeySet(r)
      ensures x in KeySet(groups) + {k}
    {
      var i :| 0 <= i < |r| && r[i].0 == x;
      if i < |groups| {
        assert groups[i].0 == x;
      }
    }
    forall x | x in KeySet(groups) + {k}
      ensures x in KeySet(r)
    {
      if x in KeySet(groups) {
        var i :| 0 <= i < |groups| && groups[i].0 == x;
        assert r[i].0 == x;
      } else {
        assert r[|groups|].0 == x;
      }
    }
  }

  /** `groupBySubcategory`. */
  function GroupBySubcategory(cmds: seq<ShellTemplate>): (groups: Groups)
    ensures DistinctKeys(groups)
    ensures KeySet(groups) == Subcategories(cmds)
    ensures TotalSize(groups) == |cmds|
    decreases |cmds|
  {
    if |cmds| == 0 then []
    else
      var init := cmds[..|cmds| - 1];
      var last := cmds[|cmds| - 1];
      assert cmds == init + [last];
      assert Subcategories(cmds) == Subcategories(init) + {last.subcategory};
      var before := GroupBySubcategory(init);
      AddToGroupKeys(before, last);
      AddToGroup(before, last)
  }

  /** Every group holds exactly the commands of its subcategory, in input order. */
  predicate GroupsAreFiltersOf(groups: Groups, cmds: seq<ShellTemplate>)
  {
    forall i :: 0 <= i < |groups| ==> groups[i].1 == Filter(cmds, InSubcategory(groups[i].0))
  }

  /** After one step, a group is the old group plus the new command when it belongs there. */
  lemma GroupStep(init: seq<ShellTemplate>, last: ShellTemplate, before: Groups, i: nat)
    requires DistinctKeys(before) && KeySet(before) == Subcategories(init)
    requires GroupsAreFiltersOf(before, init)
    requires i < |AddToGroup(before, last)|
    ensures var groups := AddToGroup(before, last);
            groups[i].1 == Filter(init + [last], InSubcategory(groups[i].0))
  {
    var groups := AddToGroup(before, last);
    var p := InSubcategory(groups[i].0);
    FilterSnoc(init, last, p);
    if i == |before| {
      assert groups[i] == (last.subcategory, [last]);
      assert last.subcategory !in Subcategories(init);
      forall j | 0 <= j < |init|
        ensures !p(init[j])
      {
        assert init[j] in init;
      }
      FilterNone(init, p);
    }
  }

  /** `groupBySubcategory` puts every command in its subcategory's group, in input order. */
  lemma {:induction false} GroupsAreFilters(cmds: seq<ShellTemplate>)
    ensures GroupsAreFiltersOf(GroupBySubcategory(cmds), cmds)
    decreases |cmds|
  {
    if |cmds| > 0 {
      var init := cmds[..|cmds| - 1];
      var last := cmds[|cmds| - 1];
      assert cmds == init + [last];
      GroupsAreFilters(init);
      var before := GroupBySubcategory(init);
      var groups := GroupBySubcategory(cmds);
      assert groups == AddToGroup(before, last);
      forall i | 0 <= i < |groups|
        ensures groups[i].1 == Filter(cmds, InSubcategory(groups[i].0))
      {
        GroupStep(init, last, before, i);
      }
    }
  }
}
