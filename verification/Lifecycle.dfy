/** Operations run one at a time: a call advanced alone until it finishes, which it does. */
module Lifecycle {
  import opened Firewall
  import opened Protocol

  /** Whether the external command issued at a given point of a lone call succeeds; such a call is at
      each point at most once. */
  type Fate = Call -> bool

  function Rank(c: Call): nat
  {
    match c
    case CheckExists(_) => 45
    case SaveInitial(_) => 44
    case Allocate(_) => 43
    case CopyRootfs(_, _) => 42
    case MakeData(_, _) => 41
    case TakeTapIndex(_, _) => 40
    case TapCommand(_, _, _, step) => if step < TAP_COMMANDS then 36 + TAP_COMMANDS - step else 36
    case AddRule(_, _, _, step) => if step < RULES then 26 + RULES - step else 26
    case Launch(_, _, _) => 25
    case Register(_, _, _) => 2
    case SaveRunning(_, _, _) => 1
    case CheckRunning(_) => 24
    case TakeInstance(_, _) => 23
    case KillVm(_, _, _, _) => 22
    case DeleteRule(_, _, _, step, _) => if step < RULES then 16 + RULES - step else 16
    case DeleteTap(_, _, _, _) => 15
    case UndoTap(_, _, _, _) => 15
    case ReleaseAddress(_, _, _) => 14
    case LoadRecord(_, _) => 13
    case SaveStopped(_, _, _) => 12
    case CleanStorage(_) => 11
    case DeleteRecord(_) => 10
    case SaveError(_, _) => 1
    case Finished(_, _) => 0
  }

  lemma RankDrops(cfg: Config, w: World, c: Call, ok: bool)
    requires !c.Finished?
    ensures Rank(Next(cfg, w, c, ok)) < Rank(c)
  {
  }

  /** The call's effects until it finishes, with nothing else running. */
  function RunAlone(cfg: Config, w: World, c: Call, fate: Fate): (World, Call)
    decreases Rank(c)
  {
    if c.Finished? then (w, c)
    else
      RankDrops(cfg, w, c, fate(c));
      RunAlone(cfg, Effect(cfg, w, c, fate(c)), Next(cfg, w, c, fate(c)), fate)
  }

  ghost predicate RuleDeletionsObey(fate: Fate)
  {
    forall c: Call :: c.DeleteRule? ==> fate(c)
  }

  /** No deletion of a device that exists fails. After a failed first TAP command there is none. */
  ghost predicate TapDeletionsObey(fate: Fate)
  {
    forall c: Call :: c.DeleteTap? || (c.UndoTap? && c.step > 0) ==> fate(c)
  }
}
