/** The authdown flag of the ping thread and the rule that goes with it
    (src/ping_thread.c:117-130 and 180-204). */
module Ping {
  import opened Base
  import opened Config
  import opened Iptables
  import opened Firewall
  import opened FwEdits
  import Sessions
  import SessionSteps

  /** How one round went: no server reached, a server that did not reply, or a reply. */
  datatype Round = NotConnected | NoReply | Reply(pong: bool)

  class PingThread {
    var authdown: bool
    const cfg: Config
    const kernel: Kernel
    ghost const prior: Tables
    ghost var fw: Fw

    /** The auth-down mark is set by exactly one rule while the flag is up, and by none else. */
    ghost predicate Valid()
      reads this, kernel
    {
      && Clean(cfg, prior) && cfg.extInterface.Some?
      && kernel.tables == Realise(cfg, prior, fw)
      && fw.downs == if authdown && HasAuthDown(cfg) then 1 else 0
    }

    constructor (cfg: Config, kernel: Kernel, ghost prior: Tables, ghost fw: Fw)
      requires Clean(cfg, prior) && cfg.extInterface.Some? && kernel.tables == Realise(cfg, prior, fw)
      requires fw.downs == 0
      ensures Valid() && !authdown && this.fw == fw && this.kernel == kernel && this.cfg == cfg
    {
      this.authdown, this.cfg, this.kernel, this.prior, this.fw := false, cfg, kernel, prior, fw;
    }

    /** The firewall state once a round went this way. */
    ghost function Sent(pong: bool): Fw
      reads this
    {
      if !HasAuthDown(cfg) || authdown == !pong then fw else fw.(downs := if pong then 0 else fw.downs + 1)
    }

    /** The flag follows the last round, however many rounds in a row went the same way. */
    method Ping(round: Round)
      requires Valid()
      modifies this, kernel
      ensures Valid() && authdown == (round != Reply(true))
      ensures fw == old(fw).(downs := fw.downs)
      ensures forall s: Sessions.Sys :: s.authdown == old(authdown) && s.v.fw == old(fw) ==>
                var t := Sessions.Step(cfg, s, Sessions.Event.Ping(round == Reply(true)));
                t.authdown == authdown && t.v == s.v.(fw := fw)
    {
      SessionSteps.PingMoves(cfg, fw, authdown, round == Reply(true), Sent(round == Reply(true)));
      match round
      case NotConnected => GoDown();
      case NoReply => GoDown();
      case Reply(pong) =>
        if !pong {
          GoDown();
        } else if authdown {
          AuthReachable(kernel, cfg, prior, fw);
          fw := Edited(cfg, fw, Reachable);
          authdown := false;
        }
    }

    method GoDown()
      requires Valid()
      modifies this, kernel
      ensures Valid() && authdown && fw == old(Sent(false))
    {
      if !authdown {
        AuthUnreachable(kernel, cfg, prior, fw);
        fw := Edited(cfg, fw, Unreachable);
        authdown := true;
      }
    }
  }
}
