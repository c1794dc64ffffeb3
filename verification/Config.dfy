/** The part of the configuration the firewall is compiled from (src/conf.h). */
module Config {
  import opened Base

  datatype FwTarget = TargetDrop | TargetReject | TargetAccept | TargetLog | TargetUlog

  datatype FwRule = FwRule(
    target: FwTarget,
    protocol: Option<string>,
    port: Option<string>,
    mask: Option<string>,
    maskIsIpset: bool)

  datatype Ruleset = Ruleset(name: string, rules: seq<FwRule>)

  datatype Config = Config(
    gwInterface: string,
    extInterface: Option<string>,
    gwAddress: string,
    gwPort: int,
    proxyPort: int,
    trustedMacs: seq<string>,
    rulesets: seq<Ruleset>)

  const GLOBAL := "global"
  const VALIDATING_USERS := "validating-users"
  const KNOWN_USERS := "known-users"
  const AUTH_IS_DOWN := "auth-is-down"
  const UNKNOWN_USERS := "unknown-users"
  const LOCKED_USERS := "locked-users"

  /** get_ruleset: the rules of the first ruleset of that name, none when there is none
      (src/conf.c:627-638). */
  function GetRuleset(rulesets: seq<Ruleset>, name: string): seq<FwRule> {
    if rulesets == [] then []
    else if rulesets[0].name == name then rulesets[0].rules
    else GetRuleset(rulesets[1..], name)
  }

  function Rules(cfg: Config, name: string): seq<FwRule> {
    GetRuleset(cfg.rulesets, name)
  }

  predicate HasAuthDown(cfg: Config) {
    Rules(cfg, AUTH_IS_DOWN) != []
  }
}
