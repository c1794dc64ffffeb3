/** A printed firewall rule parses back, and rules are filed in file order. */
module RuleTheorems {
  import opened Base
  import opened Config
  import opened RuleText

  // The conditions below name the characters and words themselves.

  predicate Blank(c: char) {
    c == ' ' || c == '\t'
  }

  predicate Gap(b: string) {
    b != "" && AllBlank(b)
  }

  predicate AllBlank(b: string) {
    forall i :: 0 <= i < |b| ==> Blank(b[i])
  }

  /** A word without blanks or capital letters. */
  predicate Plain(w: string) {
    w != "" && forall i :: 0 <= i < |w| ==> !Blank(w[i]) && !('A' <= w[i] <= 'Z')
  }

  predicate Protocol(p: string) {
    "tcp" <= p || "udp" <= p || "icmp" <= p
  }

  /** A rule whose parts are words, the protocol one of those known. */
  predicate Worded(rule: FwRule) {
    && (rule.protocol.Some? ==> Plain(rule.protocol.value) && Protocol(rule.protocol.value))
    && (rule.port.Some? ==> Plain(rule.port.value))
    && rule.mask.Some? && Plain(rule.mask.value)
  }

  predicate Numeric(port: Option<string>) {
    port.Some? ==> forall i :: 0 <= i < |port.value| ==> '0' <= port.value[i] <= '9' || port.value[i] == ':'
  }

  /** The same text, but that letters may be capitals. */
  predicate SameButCase(text: string, low: string) {
    && |text| == |low|
    && forall i :: 0 <= i < |low| ==>
         && !('A' <= low[i] <= 'Z')
         && (text[i] == low[i] || ('a' <= low[i] <= 'z' && text[i] as int == low[i] as int - 32))
  }

  function TargetWord(target: FwTarget): string {
    match target
    case TargetDrop => "drop"
    case TargetReject => "block"
    case TargetAccept => "allow"
    case TargetLog => "log"
    case TargetUlog => "ulog"
  }

  /** The blanks between the words, wherever there are words. */
  datatype Gaps = Gaps(target: string, protocol: string, keyword: string, port: string, to: string)

  predicate Spaced(g: Gaps) {
    Gap(g.target) && Gap(g.protocol) && Gap(g.keyword) && Gap(g.port) && Gap(g.to)
  }

  function PrintMask(rule: FwRule, g: Gaps, trail: string): string
    requires Worded(rule)
  {
    (if rule.maskIsIpset then "to-ipset" else "to") + g.to + (rule.mask.value + trail)
  }

  function PrintPort(rule: FwRule, g: Gaps, trail: string): string
    requires Worded(rule)
  {
    if rule.port.Some? then "port" + g.keyword + (rule.port.value + g.port + PrintMask(rule, g, trail))
    else PrintMask(rule, g, trail)
  }

  function PrintProtocol(rule: FwRule, g: Gaps, trail: string): string
    requires Worded(rule)
  {
    if rule.protocol.Some? then rule.protocol.value + g.protocol + PrintPort(rule, g, trail)
    else PrintPort(rule, g, trail)
  }

  function PrintRule(rule: FwRule, g: Gaps, trail: string): string
    requires Worded(rule)
  {
    TargetWord(rule.target) + g.target + PrintProtocol(rule, g, trail)
  }

  // ----- Letter case -----

  lemma Lowered(text: string, low: string)
    requires SameButCase(text, low)
    ensures LowerText(text) == low
  {
    forall i | 0 <= i < |low| ensures LowerText(text)[i] == low[i] {
    }
  }

  lemma LoweredAppend(a: string, b: string)
    ensures LowerText(a + b) == LowerText(a) + LowerText(b)
  {
  }

  // ----- Parsing the print -----

  /** A word, a run of blanks of any length, and more. */
  lemma TakesWord(w: string, gap: string, rest: string)
    requires (forall i :: 0 <= i < |w| ==> !Blank(w[i])) && Gap(gap)
    requires rest != "" && !Blank(rest[0])
    ensures var t := w + gap + rest;
            Word(t) == w && Rest(t) == rest && !IsLast(t)
  {
    var t := w + gap + rest;
    WordEndIs(t, |w|);
    assert t[|w|..] == gap + rest;
    SkipsGap(gap, rest);
  }

  lemma {:induction false} SkipsGap(gap: string, rest: string)
    requires AllBlank(gap) && (rest != "" ==> !Blank(rest[0]))
    ensures SkipBlanks(gap + rest) == rest
  {
    if gap == "" {
      assert gap + rest == rest;
    } else {
      assert (gap + rest)[1..] == gap[1..] + rest;
      SkipsGap(gap[1..], rest);
    }
  }

  lemma ParsesMask(rule: FwRule, g: Gaps, trail: string)
    requires Worded(rule) && Spaced(g) && (trail != "" ==> Blank(trail[0]))
    ensures ParseMask(PrintMask(rule, g, trail), false, rule.target, rule.protocol, rule.port) == Parsed(rule)
  {
    var keyword, mask := if rule.maskIsIpset then "to-ipset" else "to", rule.mask.value;
    TakesWord(keyword, g.to, mask + trail);
    WordEndIs(mask + trail, |mask|);
    assert Word(mask + trail) == mask;
    assert StartsWith(keyword, "to-ipset") == rule.maskIsIpset;
  }

  lemma MaskStarts(rule: FwRule, g: Gaps, trail: string)
    requires Worded(rule)
    ensures var t := PrintMask(rule, g, trail); |t| >= 2 && t[0] == 't' && t[1] == 'o'
  {
  }

  lemma ParsesPort(rule: FwRule, g: Gaps, trail: string)
    requires Worded(rule) && Spaced(g) && (trail != "" ==> Blank(trail[0]))
    ensures ParsePort(PrintPort(rule, g, trail), false, rule.target, rule.protocol) ==
            if Numeric(rule.port) then Parsed(rule) else BadPort
  {
    ParsesMask(rule, g, trail);
    MaskStarts(rule, g, trail);
    var rest := PrintMask(rule, g, trail);
    if rule.port.Some? {
      var port := rule.port.value;
      var t := PrintPort(rule, g, trail);
      assert t[..4] == "port";
      TakesWord("port", g.keyword, port + g.port + rest);
      TakesWord(port, g.port, rest);
    } else {
      NotPrefix(rest, "port", 0);
    }
  }

  lemma NotPrefix(t: string, prefix: string, i: nat)
    requires i < |t| && i < |prefix| && t[i] != prefix[i]
    ensures !StartsWith(t, prefix)
  {
  }

  lemma PortStarts(rule: FwRule, g: Gaps, trail: string)
    requires Worded(rule)
    ensures var t := PrintPort(rule, g, trail);
            |t| >= 2 && t[1] == 'o' && !Blank(t[0]) && !NamesProtocol(t)
  {
    MaskStarts(rule, g, trail);
    var t := PrintPort(rule, g, trail);
    if rule.port.Some? {
      assert t[0] == "port"[0] && t[1] == "port"[1];
    }
    NotPrefix(t, "tcp", 1);
    NotPrefix(t, "udp", 1);
    NotPrefix(t, "icmp", 1);
  }

  lemma ParsesProtocol(rule: FwRule, g: Gaps, trail: string)
    requires Worded(rule) && Spaced(g) && (trail != "" ==> Blank(trail[0]))
    ensures ParseProtocol(PrintProtocol(rule, g, trail), false, rule.target) ==
            if Numeric(rule.port) then Parsed(rule) else BadPort
  {
    ParsesPort(rule, g, trail);
    PortStarts(rule, g, trail);
    if rule.protocol.Some? {
      var p, rest := rule.protocol.value, PrintPort(rule, g, trail);
      TakesWord(p, g.protocol, rest);
      Assoc(p, g.protocol, rest);
      StillProtocol(p, g.protocol + rest);
    }
  }

  lemma StillProtocol(p: string, more: string)
    requires Protocol(p)
    ensures NamesProtocol(p + more)
  {
    LongerPrefix(p, more, "tcp");
    LongerPrefix(p, more, "udp");
    LongerPrefix(p, more, "icmp");
  }

  lemma LongerPrefix(w: string, more: string, prefix: string)
    ensures prefix <= w ==> StartsWith(w + more, prefix)
  {
  }

  lemma ParsesLowered(rule: FwRule, g: Gaps, trail: string)
    requires Worded(rule) && Spaced(g) && (trail != "" ==> Blank(trail[0]))
    ensures ParseLower(PrintRule(rule, g, trail)) == if Numeric(rule.port) then Parsed(rule) else BadPort
  {
    var word, rest := TargetWord(rule.target), PrintProtocol(rule, g, trail);
    TargetPlain(rule.target);
    PortStarts(rule, g, trail);
    TakesWord(word, g.target, rest);
    ParsesProtocol(rule, g, trail);
    TargetArrives(rule.target);
  }

  lemma TrailLast(rule: FwRule, g: Gaps, trail: string)
    requires Worded(rule)
    ensures PrintRule(rule, g, trail) == PrintRule(rule, g, "") + trail
  {
    ProtocolTrail(rule, g, trail);
    Assoc(TargetWord(rule.target) + g.target, PrintProtocol(rule, g, ""), trail);
  }

  lemma ProtocolTrail(rule: FwRule, g: Gaps, trail: string)
    requires Worded(rule)
    ensures PrintProtocol(rule, g, trail) == PrintProtocol(rule, g, "") + trail
  {
    PortTrail(rule, g, trail);
    if rule.protocol.Some? {
      Assoc(rule.protocol.value + g.protocol, PrintPort(rule, g, ""), trail);
    }
  }

  lemma PortTrail(rule: FwRule, g: Gaps, trail: string)
    requires Worded(rule)
    ensures PrintPort(rule, g, trail) == PrintPort(rule, g, "") + trail
  {
    MaskTrail(rule, g, trail);
    if rule.port.Some? {
      var port, mask := rule.port.value + g.port, PrintMask(rule, g, "");
      Assoc(port, mask, trail);
      Assoc("port" + g.keyword, port + mask, trail);
    }
  }

  lemma MaskTrail(rule: FwRule, g: Gaps, trail: string)
    requires Worded(rule)
    ensures PrintMask(rule, g, trail) == PrintMask(rule, g, "") + trail
  {
    var keyword := if rule.maskIsIpset then "to-ipset" else "to";
    assert rule.mask.value + "" == rule.mask.value;
    Assoc(keyword + g.to, rule.mask.value, trail);
  }

  /** In any letter case and with any runs of blanks, whatever follows the mask: the line stands for
      its rule if its port is numeric, and is refused for its port if not. */
  lemma RuleRoundTrip(rule: FwRule, g: Gaps, line: string, trail: string)
    requires Worded(rule) && Spaced(g) && (trail != "" ==> Blank(trail[0]))
    requires SameButCase(line, PrintRule(rule, g, ""))
    ensures ParseRule(line + trail) == if Numeric(rule.port) then Parsed(rule) else BadPort
  {
    Lowered(line, PrintRule(rule, g, ""));
    LoweredAppend(line, trail);
    TrailLast(rule, g, LowerText(trail));
    ParsesLowered(rule, g, LowerText(trail));
  }

  lemma TargetPlain(target: FwTarget)
    ensures forall i :: 0 <= i < |TargetWord(target)| ==> !Blank(TargetWord(target)[i])
  {
  }

  lemma TargetArrives(target: FwTarget)
    ensures TargetOf(TargetWord(target), false) == Some(target)
  {
    var w := TargetWord(target);
    match target
    case TargetDrop => assert w[0] != "block"[0];
    case TargetReject =>
    case TargetAccept => assert w[0] != "block"[0] && w[0] != "drop"[0];
    case TargetLog => assert |w| == 3;
    case TargetUlog => assert w[0] != "drop"[0] && |w| == 4;
  }

  // ----- Lines without a mask -----

  /** A rule of a target and a protocol, a port, or both. */
  function PrintShort(rule: FwRule, g: Gaps, trail: string): string
    requires Worded(rule) && (rule.protocol.Some? || rule.port.Some?)
  {
    TargetWord(rule.target) + g.target
    + if rule.protocol.None? then ShortPort(rule, g, trail)
      else if rule.port.None? then rule.protocol.value + trail
      else rule.protocol.value + g.protocol + ShortPort(rule, g, trail)
  }

  function ShortPort(rule: FwRule, g: Gaps, trail: string): string
    requires rule.port.Some?
  {
    "port" + g.keyword + (rule.port.value + trail)
  }

  /** The last word of a line and the blanks after it. */
  lemma TakesLast(w: string, trail: string)
    requires (forall i :: 0 <= i < |w| ==> !Blank(w[i])) && AllBlank(trail)
    ensures Word(w + trail) == w && Rest(w + trail) == "" && (trail == "" ==> IsLast(w + trail))
  {
    WordEndIs(w + trail, |w|);
    assert (w + trail)[|w|..] == trail + "";
    SkipsGap(trail, "");
  }

  lemma ShortPortStarts(rule: FwRule, g: Gaps, trail: string)
    requires rule.port.Some?
    ensures var t := ShortPort(rule, g, trail); |t| > 1 && t[..4] == "port" && !Blank(t[0]) && !NamesProtocol(t)
  {
    var t := ShortPort(rule, g, trail);
    assert t[..4] == "port";
    assert t[0] == "port"[0] && t[1] == "port"[1];
    NotPrefix(t, "tcp", 0);
    NotPrefix(t, "udp", 0);
    NotPrefix(t, "icmp", 0);
  }

  lemma ParsesShortPort(rule: FwRule, g: Gaps, trail: string)
    requires Worded(rule) && Spaced(g) && AllBlank(trail) && rule.port.Some?
    ensures ParsePort(ShortPort(rule, g, trail), false, rule.target, rule.protocol) ==
            if Numeric(rule.port) then Parsed(rule.(mask := Some("0.0.0.0/0"), maskIsIpset := false)) else BadPort
  {
    var port := rule.port.value;
    ShortPortStarts(rule, g, trail);
    assert !Blank((port + trail)[0]);
    TakesWord("port", g.keyword, port + trail);
    TakesLast(port, trail);
  }

  lemma ParsesBareProtocol(rule: FwRule, trail: string)
    requires Worded(rule) && AllBlank(trail) && rule.protocol.Some? && rule.port.None?
    ensures ParseProtocol(rule.protocol.value + trail, false, rule.target) ==
            Parsed(rule.(mask := Some("0.0.0.0/0"), maskIsIpset := false))
  {
    StillProtocol(rule.protocol.value, trail);
    TakesLast(rule.protocol.value, trail);
  }

  lemma ParsesShortProtocol(rule: FwRule, g: Gaps, trail: string)
    requires Worded(rule) && Spaced(g) && AllBlank(trail) && rule.protocol.Some? && rule.port.Some?
    ensures ParseProtocol(rule.protocol.value + g.protocol + ShortPort(rule, g, trail), false, rule.target) ==
            if Numeric(rule.port) then Parsed(rule.(mask := Some("0.0.0.0/0"), maskIsIpset := false)) else BadPort
  {
    var p, rest := rule.protocol.value, ShortPort(rule, g, trail);
    ShortPortStarts(rule, g, trail);
    TakesWord(p, g.protocol, rest);
    Assoc(p, g.protocol, rest);
    StillProtocol(p, g.protocol + rest);
    ParsesShortPort(rule, g, trail);
  }

  /** A line that names no mask stands for its rule over all destinations. */
  lemma ShortRuleMeansEverywhere(rule: FwRule, g: Gaps, text: string, trail: string)
    requires Worded(rule) && Spaced(g) && AllBlank(trail) && (rule.protocol.Some? || rule.port.Some?)
    requires SameButCase(text, PrintShort(rule, g, trail))
    ensures ParseRule(text) ==
            if Numeric(rule.port) then Parsed(rule.(mask := Some("0.0.0.0/0"), maskIsIpset := false)) else BadPort
  {
    Lowered(text, PrintShort(rule, g, trail));
    TargetPlain(rule.target);
    TargetArrives(rule.target);
    if rule.protocol.None? {
      ShortPortStarts(rule, g, trail);
      TakesWord(TargetWord(rule.target), g.target, ShortPort(rule, g, trail));
      ParsesShortPort(rule, g, trail);
    } else if rule.port.None? {
      TakesWord(TargetWord(rule.target), g.target, rule.protocol.value + trail);
      ParsesBareProtocol(rule, trail);
    } else {
      TakesWord(TargetWord(rule.target), g.target, rule.protocol.value + g.protocol + ShortPort(rule, g, trail));
      ParsesShortProtocol(rule, g, trail);
    }
  }

  // ----- Lines that are refused, and lines without a protocol -----

  lemma FirstWord(w: string, tail: string)
    requires (forall i :: 0 <= i < |w| ==> !Blank(w[i])) && tail != "" && Blank(tail[0])
    ensures Word(w + tail) == w && !IsLast(w + tail)
  {
    WordEndIs(w + tail, |w|);
  }

  lemma RefusedByTarget(t: string)
    ensures ParseLower(t) == BadTarget <==> TargetOf(Word(t), IsLast(t)) == None
  {
  }

  lemma NoSuchTarget(w: string)
    ensures TargetOf(w, false) == None <==> w != "block" && w != "drop" && w != "allow" && w != "log" && w != "ulog"
  {
  }

  /** A word, a blank and more: refused for its target exactly when the word is none of the five. */
  lemma UnknownTargetRefused(word: string, low: string, rest: string)
    requires SameButCase(word, low) && (forall i :: 0 <= i < |low| ==> !Blank(low[i]))
    requires rest != "" && Blank(rest[0])
    ensures ParseRule(word + rest) == BadTarget <==>
            low != "block" && low != "drop" && low != "allow" && low != "log" && low != "ulog"
  {
    Lowered(word, low);
    LoweredAppend(word, rest);
    FirstWord(low, LowerText(rest));
    RefusedByTarget(low + LowerText(rest));
    NoSuchTarget(low);
  }

  /** A line that parses has a protocol exactly when what follows its target begins with one of the
      three names, and then the protocol is the word that begins so. */
  lemma ProtocolIffNamed(word: string, gap: string, rest: string, low: string)
    requires (forall i :: 0 <= i < |word| ==> !Blank(word[i])) && Gap(gap) && rest != "" && !Blank(rest[0])
    requires SameButCase(rest, low) && ParseRule(word + gap + rest).Parsed?
    ensures ParseRule(word + gap + rest).rule.protocol ==
            if "tcp" <= low || "udp" <= low || "icmp" <= low then Some(Word(low)) else None
  {
    LoweredThree(word, gap, rest);
    Lowered(rest, low);
    TakesWord(LowerText(word), gap, low);
    LaterWordsKeepProtocol(low, TargetOf(LowerText(word), false).value);
  }

  lemma LoweredThree(word: string, gap: string, rest: string)
    requires AllBlank(gap)
    ensures LowerText(word + gap + rest) == LowerText(word) + gap + LowerText(rest)
  {
    LoweredAppend(word + gap, rest);
    LoweredAppend(word, gap);
    assert LowerText(gap) == gap;
  }

  lemma LaterWordsKeepProtocol(t: string, target: FwTarget)
    ensures var p := ParseProtocol(t, false, target);
            p.Parsed? ==> p.rule.protocol == if "tcp" <= t || "udp" <= t || "icmp" <= t then Some(Word(t)) else None
  {
  }

  /** A line of one bare word rejects everything, "allow" and nonsense included. */
  lemma LoneWordRejects(text: string)
    requires ' ' !in text && '\t' !in text
    ensures ParseRule(text) == Parsed(FwRule(TargetReject, None, None, Some("0.0.0.0/0"), false))
  {
    var t := LowerText(text);
    assert forall i :: 0 <= i < |t| ==> !IsBlank(text[i]);
    WordEndIs(t, |t|);
    assert t[WordEnd(t)..] == "";
    assert Rest(t) == "";
  }

  /** The first word of a line that parses decides its target if and only if a blank follows that
      word, or the word is "block" in some letter case. */
  lemma FirstWordDecides(text: string)
    requires ParseRule(text).Parsed?
    ensures TargetOf(Word(LowerText(text)), false) == Some(ParseRule(text).rule.target) <==>
            ' ' in text || '\t' in text || LowerText(text) == "block"
  {
    var t := LowerText(text);
    SameEnd(text);
    if IsLast(text) {
      LoneWordRejects(text);
      assert Word(t) == t;
      OnlyBlockRejects(t);
    } else {
      LaterWordsKeepTarget(Rest(t), TargetOf(Word(t), false).value);
    }
  }

  lemma SameEnd(text: string)
    ensures WordEnd(LowerText(text)) == WordEnd(text)
  {
    var t, n := LowerText(text), WordEnd(text);
    assert forall i :: 0 <= i < n ==> !IsBlank(text[i]);
    WordEndIs(t, n);
  }

  lemma OnlyBlockRejects(word: string)
    ensures TargetOf(word, false) == Some(TargetReject) <==> word == "block"
  {
  }

  /** The words after the first never change the target. */
  lemma LaterWordsKeepTarget(t: string, target: FwTarget)
    ensures var p := ParseProtocol(t, false, target); p.Parsed? ==> p.rule.target == target
  {
  }

  /** The input at which it fails: "allow" alone. */
  lemma AllowAloneRejects()
    ensures ParseRule("allow") == Parsed(FwRule(TargetReject, None, None, Some("0.0.0.0/0"), false))
    ensures TargetOf("allow", false) == Some(TargetAccept)
  {
    WordEndIs("allow", 5);
    LoneWordRejects("allow");
  }

  // ----- File order -----

  /** A rule line under the heading of a ruleset. */
  datatype Line = Line(ruleset: string, text: string)

  function LoadLine(line: Line, rulesets: seq<Ruleset>): seq<Ruleset> {
    match ParseRule(line.text)
    case Parsed(rule) => AddRule(rulesets, line.ruleset, rule)
    case _ => rulesets
  }

  function Load(lines: seq<Line>, rulesets: seq<Ruleset>): seq<Ruleset> {
    if lines == [] then rulesets else Load(lines[1..], LoadLine(lines[0], rulesets))
  }

  /** The rule of a well-formed line under a name. */
  function RuleUnder(line: Line, name: string): seq<FwRule> {
    match ParseRule(line.text)
    case Parsed(rule) => if line.ruleset == name then [rule] else []
    case _ => []
  }

  function RulesUnder(lines: seq<Line>, name: string): seq<FwRule> {
    if lines == [] then [] else RuleUnder(lines[0], name) + RulesUnder(lines[1..], name)
  }

  lemma LineSeen(line: Line, rulesets: seq<Ruleset>, name: string)
    ensures GetRuleset(LoadLine(line, rulesets), name) == GetRuleset(rulesets, name) + RuleUnder(line, name)
  {
    match ParseRule(line.text)
    case Parsed(rule) => AddRuleSeen(rulesets, line.ruleset, rule, name);
    case _ =>
  }

  lemma {:induction false} LoadKeepsOrder(lines: seq<Line>, rulesets: seq<Ruleset>, name: string)
    ensures GetRuleset(Load(lines, rulesets), name) == GetRuleset(rulesets, name) + RulesUnder(lines, name)
    decreases |lines|
  {
    if lines != [] {
      LineSeen(lines[0], rulesets, name);
      LoadKeepsOrder(lines[1..], LoadLine(lines[0], rulesets), name);
      Assoc(GetRuleset(rulesets, name), RuleUnder(lines[0], name), RulesUnder(lines[1..], name));
    }
  }

  /** Reading a file gives each ruleset its own lines in file order, whatever stands under
      other names in between. */
  lemma FileOrder(lines: seq<Line>, name: string)
    ensures GetRuleset(Load(lines, []), name) == RulesUnder(lines, name)
  {
    LoadKeepsOrder(lines, [], name);
    assert [] + RulesUnder(lines, name) == RulesUnder(lines, name);
  }
}
