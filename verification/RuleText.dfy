/** Firewall rule lines and the rulesets they are filed in (src/conf.c:416-428 and 494-638). */
module RuleText {
  import opened Base
  import opened Config
  import opened CStrings

  predicate IsBlank(c: char) {
    c == ' ' || c == '\t'
  }

  function Lower(c: char): char {
    if 'A' <= c <= 'Z' then (c as int + 32) as char else c
  }

  function LowerText(s: string): (r: string)
    ensures |r| == |s| && forall i :: 0 <= i < |s| ==> r[i] == Lower(s[i])
  {
    if s == "" then "" else [Lower(s[0])] + LowerText(s[1..])
  }

  predicate StartsWith(s: string, prefix: string) {
    prefix <= s
  }

  // ----- Words -----

  function WordEnd(s: string): (n: nat)
    ensures n <= |s| && (forall i :: 0 <= i < n ==> !IsBlank(s[i])) && (n < |s| ==> IsBlank(s[n]))
  {
    if s == "" || IsBlank(s[0]) then 0 else 1 + WordEnd(s[1..])
  }

  function Word(s: string): (w: string)
    ensures |w| == WordEnd(s)
  {
    s[..WordEnd(s)]
  }

  function SkipBlanks(s: string): (r: string)
    ensures |r| <= |s|
  {
    if s != "" && IsBlank(s[0]) then SkipBlanks(s[1..]) else s
  }

  /** What follows the word and the blanks after it. */
  function Rest(s: string): string {
    SkipBlanks(s[WordEnd(s)..])
  }

  /** The word runs to the very end: not even a blank follows. */
  predicate IsLast(s: string) {
    WordEnd(s) == |s|
  }

  lemma {:induction false} WordEndIs(s: string, n: nat)
    requires n <= |s| && (forall i :: 0 <= i < n ==> !IsBlank(s[i])) && (n < |s| ==> IsBlank(s[n]))
    ensures WordEnd(s) == n
  {
    if n > 0 {
      WordEndIs(s[1..], n - 1);
    }
  }

  method FindWordEnd(buf: array<char>, s: nat, ghost text: string) returns (end: nat)
    requires HoldsAt(buf, s, text)
    ensures end == s + WordEnd(text)
  {
    end := s;
    while buf[end] != NUL && !IsBlank(buf[end])
      invariant s <= end <= s + WordEnd(text)
      decreases s + |text| - end
    {
      end := end + 1;
    }
  }

  method FindWordStart(buf: array<char>, s: nat, ghost text: string) returns (start: nat)
    requires HoldsAt(buf, s, text)
    ensures HoldsAt(buf, start, SkipBlanks(text))
  {
    start := s;
    ghost var left := text;
    while IsBlank(buf[start])
      invariant HoldsAt(buf, start, left) && SkipBlanks(left) == SkipBlanks(text)
      decreases |left|
    {
      TailHeld(buf, start, left);
      left := left[1..];
      start := start + 1;
    }
  }

  lemma TailHeld(buf: array<char>, k: nat, s: string)
    requires HoldsAt(buf, k, s) && s != ""
    ensures HoldsAt(buf, k + 1, s[1..])
  {
  }

  /** TO_NEXT_WORD: end the word at s, and move past the blanks that follow it. */
  method ToNextWord(buf: array<char>, s: nat, e: bool, ghost text: string)
    returns (word: string, next: nat, finished: bool)
    requires HoldsAt(buf, s, text)
    modifies buf
    ensures word == Word(text) && finished == (e || IsLast(text))
    ensures HoldsAt(buf, next, Rest(text))
  {
    finished := e;
    next := FindWordEnd(buf, s, text);
    word := buf[s..next];
    assert word == Word(text);
    ghost var tail := text[WordEnd(text)..];
    if buf[next] != NUL {
      buf[next] := NUL;
      assert HoldsAt(buf, next + 1, tail[1..]);
      next := FindWordStart(buf, next + 1, tail[1..]);
    } else {
      finished := true;
      assert tail == "";
    }
  }

  method LowerInPlace(buf: array<char>, k: nat, ghost text: string)
    requires HoldsAt(buf, k, text)
    modifies buf
    ensures HoldsAt(buf, k, LowerText(text))
  {
    var i := 0;
    while buf[k + i] != NUL
      invariant i <= |text| && k + |text| < buf.Length && buf[k + |text|] == NUL
      invariant forall j :: k <= j < k + i ==> buf[j] == Lower(text[j - k]) && buf[j] != NUL
      invariant forall j :: k + i <= j < k + |text| ==> buf[j] == text[j - k] && buf[j] != NUL
      decreases |text| - i
    {
      buf[k + i] := Lower(buf[k + i]);
      i := i + 1;
    }
  }

  // ----- A rule -----

  datatype Parsed = BadTarget | BadPort | Parsed(rule: FwRule)

  predicate NamesProtocol(s: string) {
    StartsWith(s, "tcp") || StartsWith(s, "udp") || StartsWith(s, "icmp")
  }

  predicate IsPort(s: string) {
    forall i :: 0 <= i < |s| ==> '0' <= s[i] <= '9' || s[i] == ':'
  }

  /** A line that is one word only is taken for a rejection whatever the word. */
  function TargetOf(word: string, finished: bool): Option<FwTarget> {
    if word == "block" || finished then Some(TargetReject)
    else if word == "drop" then Some(TargetDrop)
    else if word == "allow" then Some(TargetAccept)
    else if word == "log" then Some(TargetLog)
    else if word == "ulog" then Some(TargetUlog)
    else None
  }

  /** The words of a rule from the target on. */
  function ParseLower(t: string): Parsed {
    match TargetOf(Word(t), IsLast(t))
    case None => BadTarget
    case Some(target) => ParseProtocol(Rest(t), IsLast(t), target)
  }

  function ParseProtocol(t: string, finished: bool, target: FwTarget): Parsed {
    if NamesProtocol(t) then ParsePort(Rest(t), finished || IsLast(t), target, Some(Word(t)))
    else ParsePort(t, finished, target, None)
  }

  function ParsePort(t: string, finished: bool, target: FwTarget, protocol: Option<string>): Parsed {
    if StartsWith(t, "port") then
      var port := Word(Rest(t));
      if IsPort(port)
      then ParseMask(Rest(Rest(t)), finished || IsLast(t) || IsLast(Rest(t)), target, protocol, Some(port))
      else BadPort
    else ParseMask(t, finished, target, protocol, None)
  }

  function ParseMask(t: string, finished: bool, target: FwTarget, protocol: Option<string>, port: Option<string>): Parsed {
    if finished || IsLast(t) then Parsed(FwRule(target, protocol, port, Some("0.0.0.0/0"), false))
    else Parsed(FwRule(target, protocol, port, Some(Word(Rest(t))), StartsWith(Word(t), "to-ipset")))
  }

  function ParseRule(text: string): Parsed {
    ParseLower(LowerText(text))
  }

  // ----- Rulesets -----

  /** The rule becomes the last of its ruleset, which becomes the last ruleset if it is new. */
  function AddRule(rulesets: seq<Ruleset>, name: string, rule: FwRule): seq<Ruleset> {
    if rulesets == [] then [Ruleset(name, [rule])]
    else if rulesets[0].name == name then [Ruleset(name, rulesets[0].rules + [rule])] + rulesets[1..]
    else [rulesets[0]] + AddRule(rulesets[1..], name, rule)
  }

  lemma {:induction false} AddRuleAt(rulesets: seq<Ruleset>, name: string, rule: FwRule, k: nat)
    requires k <= |rulesets| && (k < |rulesets| ==> rulesets[k].name == name)
    requires forall i :: 0 <= i < k ==> rulesets[i].name != name
    ensures AddRule(rulesets, name, rule) ==
            if k < |rulesets| then rulesets[k := Ruleset(name, rulesets[k].rules + [rule])]
            else rulesets + [Ruleset(name, [rule])]
    ensures GetRuleset(rulesets, name) == if k < |rulesets| then rulesets[k].rules else []
  {
    if k > 0 {
      AddRuleAt(rulesets[1..], name, rule, k - 1);
    }
  }

  /** Filing a rule is seen under its own name and under no other. */
  lemma {:induction false} AddRuleSeen(rulesets: seq<Ruleset>, name: string, rule: FwRule, asked: string)
    ensures GetRuleset(AddRule(rulesets, name, rule), asked) ==
            GetRuleset(rulesets, asked) + if asked == name then [rule] else []
  {
    if rulesets != [] {
      AddRuleSeen(rulesets[1..], name, rule, asked);
    }
  }

  /** The rulesets of the configuration being read. */
  class Rulesets {
    var rulesets: seq<Ruleset>

    constructor ()
      ensures rulesets == []
    {
      rulesets := [];
    }

    method Find(name: string) returns (k: nat)
      ensures k <= |rulesets| && (k < |rulesets| ==> rulesets[k].name == name)
      ensures forall i :: 0 <= i < k ==> rulesets[i].name != name
    {
      k := 0;
      while k < |rulesets| && rulesets[k].name != name
        invariant k <= |rulesets|
        invariant forall i :: 0 <= i < k ==> rulesets[i].name != name
      {
        k := k + 1;
      }
    }

    method Get(name: string) returns (rules: seq<FwRule>)
      ensures rules == GetRuleset(rulesets, name)
    {
      var k := Find(name);
      AddRuleAt(rulesets, name, FwRule(TargetReject, None, None, None, false), k);
      rules := if k < |rulesets| then rulesets[k].rules else [];
    }

    method Append(name: string, rule: FwRule)
      modifies this
      ensures rulesets == AddRule(old(rulesets), name, rule)
    {
      var k := Find(name);
      AddRuleAt(rulesets, name, rule, k);
      if k == |rulesets| {
        rulesets := rulesets + [Ruleset(name, [rule])];
      } else {
        rulesets := rulesets[k := Ruleset(name, rulesets[k].rules + [rule])];
      }
    }

    /** _parse_firewall_rule: 1 when the rule was filed, negative when the line was refused. */
    method ParseFirewallRule(ruleset: string, leftover: array<char>, ghost text: string) returns (code: int)
      requires HoldsAt(leftover, 0, text)
      modifies this, leftover
      ensures code == match ParseRule(text) case BadTarget => -1 case BadPort => -3 case Parsed(_) => 1
      ensures rulesets == match ParseRule(text)
                          case Parsed(rule) => AddRule(old(rulesets), ruleset, rule)
                          case _ => old(rulesets)
    {
      LowerInPlace(leftover, 0, text);
      ghost var t := LowerText(text);
      var token, s, finished := ToNextWord(leftover, 0, false, t);
      var target := TargetOf(token, finished);
      if target == None {
        return -1;
      }
      var protocol: Option<string> := None;
      t := Rest(t);
      ghost var afterTarget := ParseProtocol(t, finished, target.value);
      var word;
      var isProtocol := ReadNamesProtocol(leftover, s, t);
      if isProtocol {
        word, s, finished := ToNextWord(leftover, s, finished, t);
        protocol := Some(word);
        t := Rest(t);
      }
      assert afterTarget == ParsePort(t, finished, target.value, protocol);
      code := ParsePortAndMask(ruleset, leftover, s, t, finished, target.value, protocol);
    }

    method ParsePortAndMask(ruleset: string, leftover: array<char>, from: nat, ghost text: string, done: bool,
                            target: FwTarget, protocol: Option<string>) returns (code: int)
      requires HoldsAt(leftover, from, text)
      modifies this, leftover
      ensures var parsed := ParsePort(text, done, target, protocol);
              && code == (match parsed case BadTarget => -1 case BadPort => -3 case Parsed(_) => 1)
              && rulesets == match parsed
                             case Parsed(rule) => AddRule(old(rulesets), ruleset, rule)
                             case _ => old(rulesets)
    {
      var s, finished, port: Option<string> := from, done, None;
      ghost var t := text;
      var word;
      var isPort := ReadPrefix(leftover, s, t, "port");
      if isPort {
        word, s, finished := ToNextWord(leftover, s, finished, t);
        t := Rest(t);
        word, s, finished := ToNextWord(leftover, s, finished, t);
        t := Rest(t);
        port := Some(word);
        var allNums := CheckPort(word);
        if !allNums {
          return -3;
        }
      }
      var mask, maskIsIpset := "0.0.0.0/0", false;
      if !finished {
        var keyword;
        keyword, s, finished := ToNextWord(leftover, s, finished, t);
        t := Rest(t);
        maskIsIpset := StartsWith(keyword, "to-ipset") && !finished;
        var arg, _, _ := ToNextWord(leftover, s, finished, t);
        if !finished {
          mask := arg;
        }
      }
      Append(ruleset, FwRule(target, protocol, port, Some(mask), maskIsIpset));
      code := 1;
    }
  }

  method CheckPort(port: string) returns (allNums: bool)
    ensures allNums == IsPort(port)
  {
    allNums := true;
    for i := 0 to |port|
      invariant allNums == forall j :: 0 <= j < i ==> '0' <= port[j] <= '9' || port[j] == ':'
    {
      if !('0' <= port[i] <= '9') && port[i] != ':' {
        allNums := false;
      }
    }
  }

  /** strncmp of the text at k with a whole word. */
  method ReadPrefix(buf: array<char>, k: nat, ghost text: string, prefix: string) returns (b: bool)
    requires HoldsAt(buf, k, text) && NUL !in prefix
    ensures b == StartsWith(text, prefix)
  {
    var i := 0;
    while i < |prefix| && buf[k + i] == prefix[i]
      invariant i <= |prefix| && i <= |text|
      invariant forall j :: 0 <= j < i ==> buf[k + j] == prefix[j]
    {
      assert prefix[i] in prefix;
      i := i + 1;
    }
    b := i == |prefix|;
    PrefixRead(text, prefix, i, buf[k..k + |text|]);
  }

  lemma PrefixRead(text: string, prefix: string, i: nat, read: string)
    requires i <= |prefix| && i <= |text| && read == text && text[..i] == prefix[..i]
    requires i < |prefix| ==> i == |text| || text[i] != prefix[i]
    ensures i == |prefix| <==> StartsWith(text, prefix)
  {
    if i == |prefix| {
      assert prefix[..i] == prefix;
    }
  }

  method ReadNamesProtocol(buf: array<char>, k: nat, ghost text: string) returns (b: bool)
    requires HoldsAt(buf, k, text)
    ensures b == NamesProtocol(text)
  {
    b := ReadPrefix(buf, k, text, "tcp");
    if !b {
      b := ReadPrefix(buf, k, text, "udp");
    }
    if !b {
      b := ReadPrefix(buf, k, text, "icmp");
    }
  }
}
