/** The whole of an admission: the plan is replanned against live state, and then admitted or blocked. */
module Admissions {
  import opened Common
  import opened ControlPlane
  import ControlTables
  import Replanning
  import WatermarkTables

  /** The stored plan and its row agree. */
  ghost predicate SamePlan(db: ControlTables.Db, row: Replanning.PlanRow, p: nat)
    reads db, row
  {
    p in db.plans ==> row.Plan() == db.plans[p]
  }

  /** Admits a plan with the replan that live state dictates; only the preparation of the run is outside. */
  method AdmitLive(db: ControlTables.Db, row: Replanning.PlanRow, p: nat, live: Replanning.Live,
                   tables: WatermarkTables.Tables, prepares: bool, id: nat, queue: string, deadline: Option<int>,
                   now: int)
    returns (r: Result<Option<nat>, ControlTables.ControlError>, ghost a: Admission)
    requires id !in db.invocations && SamePlan(db, row, p) && Replanning.AllAcyclic(live) && tables.Valid()
    modifies db, row
    ensures a.plan == p && a.prepares == prepares && a.invocation == id
    ensures db.Store() == Admit(old(db.Store()), a) && SamePlan(db, row, p)
    ensures p in old(db.plans) && Admissible(old(db.plans)[p].status) ==>
      row.IsReplan(live, tables, old(db.plans)[p].selected, a.replan)
    ensures r == match AdmissionOutcome(old(db.Store()), a)
      case NotFound => Err(ControlTables.PlanNotFound)
      case NotAdmissible => Err(ControlTables.PlanNotAdmissible)
      case NotPrepared => Err(ControlTables.PreparationFailed)
      case Noop => Ok(None)
      case IsBlocked => Ok(None)
      case Started => Ok(Some(id))
  {
    var replan := Keep;
    if p in db.plans && Admissible(db.plans[p].status) {
      replan := row.ReplanPending(live, tables, now);
    }
    r, a := db.AdmitAndStartPlan(p, replan, prepares, id, queue, deadline, now);
    if p in db.plans {
      row.Refresh(db.plans[p]);
    }
  }
}
