/**
 * What `validateQueue` refuses (src/core/queue.ts:87-131), one thing that can be wrong at a time, and the order in
 * which it looks: a config is accepted when nothing is wrong with it, and otherwise the error is the first thing that
 * is.
 */
module QueueRules {
  import opened Basics
  import opened TopoSort
  import opened QueueBuild
  import D = Duration

  predicate AtJob(cfg: QueueConfig, i: nat) {
    i < |cfg.jobs|
  }

  predicate AtDependency(cfg: QueueConfig, i: nat, k: nat) {
    i < |cfg.jobs| && k < |cfg.jobs[i].dependsOn|
  }

  predicate Named(jobs: seq<Job>, id: string, n: nat)
    requires n <= |jobs|
  {
    exists j :: 0 <= j < n && jobs[j].id == id
  }

  predicate KnownBackoff(s: string) {
    s == "" || s == "fixed" || s == "exponential"
  }

  predicate KnownPolicy(s: string) {
    s == "" || s == "stop" || s == "continue"
  }

  /** The error is true of the config, whatever else is wrong with it. */
  ghost predicate Wrong(cfg: QueueConfig, e: QueueError) {
    match e
    case NoJobs => |cfg.jobs| == 0
    case MissingId(i) => AtJob(cfg, i) && |cfg.jobs[i].id| == 0
    case DuplicateId(i) => AtJob(cfg, i) && Named(cfg.jobs, cfg.jobs[i].id, i)
    case MissingCommand(i) => AtJob(cfg, i) && |cfg.jobs[i].command| == 0
    case MissingTimeout(i) => AtJob(cfg, i) && |cfg.jobs[i].timeout| == 0
    case BadTimeout(i) => AtJob(cfg, i) && D.ParseDuration(cfg.jobs[i].timeout).Malformed?
    case SelfDependency(i, k) => AtDependency(cfg, i, k) && cfg.jobs[i].dependsOn[k] == cfg.jobs[i].id
    case UnknownDependency(i, k) => AtDependency(cfg, i, k) && !Named(cfg.jobs, cfg.jobs[i].dependsOn[k], |cfg.jobs|)
    case BadAttempts(i) => AtJob(cfg, i) && cfg.jobs[i].retry.Some? && cfg.jobs[i].retry.value.maxAttempts <= 0
    case BadBackoff(i) => AtJob(cfg, i) && cfg.jobs[i].retry.Some? && !KnownBackoff(cfg.jobs[i].retry.value.backoff)
    case BadGlobalTimeout => |cfg.globalTimeout| > 0 && D.ParseDuration(cfg.globalTimeout).Malformed?
    case BadOnFailure => !KnownPolicy(cfg.onFailure)
    case Circular => HasCycle(cfg.jobs)
  }

  /** Where the validator looks for an error: the part of its body, the job, the check on it, the dependency. */
  datatype Place = Place(part: nat, job: nat, check: nat, dep: nat) {
    predicate Before(other: Place) {
      || part < other.part
      || (part == other.part && job < other.job)
      || (part == other.part && job == other.job && check < other.check)
      || (part == other.part && job == other.job && check == other.check && dep < other.dep)
    }
  }

  function PlaceOf(e: QueueError): Place {
    match e
    case NoJobs => Place(0, 0, 0, 0)
    case MissingId(i) => Place(1, i, 0, 0)
    case DuplicateId(i) => Place(1, i, 1, 0)
    case MissingCommand(i) => Place(1, i, 2, 0)
    case MissingTimeout(i) => Place(1, i, 3, 0)
    case BadTimeout(i) => Place(1, i, 4, 0)
    case SelfDependency(i, k) => Place(2, i, 0, 2 * k)
    case UnknownDependency(i, k) => Place(2, i, 0, 2 * k + 1)
    case BadAttempts(i) => Place(2, i, 1, 0)
    case BadBackoff(i) => Place(2, i, 2, 0)
    case BadGlobalTimeout => Place(3, 0, 0, 0)
    case BadOnFailure => Place(4, 0, 0, 0)
    case Circular => Place(5, 0, 0, 0)
  }

  lemma ValidHasNothingWrong(cfg: QueueConfig, e: QueueError)
    requires ValidQueue(cfg)
    ensures !Wrong(cfg, e)
  {
    UntakenIsUnique(cfg.jobs);
    match e
    case SelfDependency(i, k) =>
      if AtDependency(cfg, i, k) { assert LinksOk(cfg.jobs, i) && DependencyOk(cfg.jobs, i, k); }
    case UnknownDependency(i, k) =>
      if AtDependency(cfg, i, k) { assert LinksOk(cfg.jobs, i) && DependencyOk(cfg.jobs, i, k); }
    case DuplicateId(i) => if AtJob(cfg, i) { assert !TakenId(cfg.jobs, i); }
    case BadAttempts(i) => if AtJob(cfg, i) { assert LinksOk(cfg.jobs, i); }
    case BadBackoff(i) => if AtJob(cfg, i) { assert LinksOk(cfg.jobs, i); }
    case _ =>
  }

  lemma FieldsRight(cfg: QueueConfig, i: nat)
    requires i < |cfg.jobs|
    requires !Wrong(cfg, MissingId(i)) && !Wrong(cfg, DuplicateId(i)) && !Wrong(cfg, MissingCommand(i))
    requires !Wrong(cfg, MissingTimeout(i)) && !Wrong(cfg, BadTimeout(i))
    ensures FieldsOk(cfg.jobs[i]) && !TakenId(cfg.jobs, i)
  {
  }

  lemma LinksRight(cfg: QueueConfig, i: nat)
    requires i < |cfg.jobs|
    requires forall k: nat :: !Wrong(cfg, SelfDependency(i, k)) && !Wrong(cfg, UnknownDependency(i, k))
    requires !Wrong(cfg, BadAttempts(i)) && !Wrong(cfg, BadBackoff(i))
    ensures LinksOk(cfg.jobs, i)
  {
    forall k | 0 <= k < |cfg.jobs[i].dependsOn| ensures DependencyOk(cfg.jobs, i, k) {
      assert !Wrong(cfg, SelfDependency(i, k)) && !Wrong(cfg, UnknownDependency(i, k));
    }
  }

  /** The validator accepts a config exactly when nothing is wrong with it. */
  lemma ValidIff(cfg: QueueConfig)
    ensures ValidQueue(cfg) <==> forall e :: !Wrong(cfg, e)
  {
    if ValidQueue(cfg) {
      forall e ensures !Wrong(cfg, e) { ValidHasNothingWrong(cfg, e); }
    }
    if forall e :: !Wrong(cfg, e) {
      forall i: nat | i < |cfg.jobs|
        ensures FieldsOk(cfg.jobs[i]) && !TakenId(cfg.jobs, i) && LinksOk(cfg.jobs, i)
      {
        FieldsRight(cfg, i);
        LinksRight(cfg, i);
      }
      UntakenIsUnique(cfg.jobs);
      assert !Wrong(cfg, NoJobs) && !Wrong(cfg, BadGlobalTimeout) && !Wrong(cfg, BadOnFailure) && !Wrong(cfg, Circular);
    }
  }

  /** With the fields of the first n jobs in order, no field error is about one of them. */
  lemma FieldsHold(cfg: QueueConfig, n: nat, other: QueueError)
    requires n <= |cfg.jobs| && AllFieldsOk(cfg.jobs, n)
    requires PlaceOf(other).part == 1 && (AtJob(cfg, PlaceOf(other).job) ==> PlaceOf(other).job < n)
    ensures !Wrong(cfg, other)
  {
    var j := PlaceOf(other).job;
    if j < n { assert FieldsOk(cfg.jobs[j]) && !TakenId(cfg.jobs, j); }
  }

  lemma LinksHold(cfg: QueueConfig, n: nat, other: QueueError)
    requires n <= |cfg.jobs| && AllLinksOk(cfg.jobs, n)
    requires PlaceOf(other).part == 2 && (AtJob(cfg, PlaceOf(other).job) ==> PlaceOf(other).job < n)
    ensures !Wrong(cfg, other)
  {
    var j := PlaceOf(other).job;
    if j < n {
      assert LinksOk(cfg.jobs, j);
      if (other.SelfDependency? || other.UnknownDependency?) && AtDependency(cfg, j, other.dep) {
        assert DependencyOk(cfg.jobs, j, other.dep);
      }
    }
  }

  lemma EarlierField(cfg: QueueConfig, e: QueueError, i: nat, other: QueueError)
    requires i < |cfg.jobs| && AllFieldsOk(cfg.jobs, i) && FieldProblem(cfg.jobs, i, e)
    requires PlaceOf(other).Before(PlaceOf(e))
    ensures !Wrong(cfg, other)
  {
    if PlaceOf(other).part == 1 && PlaceOf(other).job < i {
      FieldsHold(cfg, i, other);
    }
  }

  /** Of the checks on one job's dependencies and retry setting the earlier ones passed. */
  lemma SameJob(cfg: QueueConfig, e: QueueError, i: nat, other: QueueError)
    requires i < |cfg.jobs| && LinkProblem(cfg.jobs, i, e)
    requires PlaceOf(other).Before(PlaceOf(e)) && PlaceOf(other).part == 2 && PlaceOf(other).job == i
    ensures !Wrong(cfg, other)
  {
    if (other.SelfDependency? || other.UnknownDependency?) && AtDependency(cfg, i, other.dep) {
      if e.SelfDependency? || e.UnknownDependency? {
        assert other.dep < e.dep ==> DependencyOk(cfg.jobs, i, other.dep);
      } else {
        assert DependencyOk(cfg.jobs, i, other.dep);
      }
    }
  }

  lemma EarlierLink(cfg: QueueConfig, e: QueueError, i: nat, other: QueueError)
    requires i < |cfg.jobs| && AllFieldsOk(cfg.jobs, |cfg.jobs|) && AllLinksOk(cfg.jobs, i) &&
               LinkProblem(cfg.jobs, i, e)
    requires PlaceOf(other).Before(PlaceOf(e))
    ensures !Wrong(cfg, other)
  {
    if PlaceOf(other).part == 1 {
      FieldsHold(cfg, |cfg.jobs|, other);
    } else if PlaceOf(other).part == 2 && PlaceOf(other).job < i {
      LinksHold(cfg, i, other);
    } else if PlaceOf(other).part == 2 {
      SameJob(cfg, e, i, other);
    }
  }

  /** Nothing the validator looks at before the error it reports is wrong. */
  lemma NothingEarlier(cfg: QueueConfig, e: QueueError, other: QueueError)
    requires FirstProblem(cfg, e) && PlaceOf(other).Before(PlaceOf(e))
    ensures !Wrong(cfg, other)
  {
    if FirstFieldProblem(cfg.jobs, e) {
      var i :| 0 <= i < |cfg.jobs| && AllFieldsOk(cfg.jobs, i) && FieldProblem(cfg.jobs, i, e);
      EarlierField(cfg, e, i, other);
    } else if FirstLinkProblem(cfg.jobs, e) {
      var i :| 0 <= i < |cfg.jobs| && AllLinksOk(cfg.jobs, i) && LinkProblem(cfg.jobs, i, e);
      EarlierLink(cfg, e, i, other);
    } else if PlaceOf(other).part == 1 {
      FieldsHold(cfg, |cfg.jobs|, other);
    } else if PlaceOf(other).part == 2 {
      LinksHold(cfg, |cfg.jobs|, other);
    }
  }

  /** The error is the first thing wrong with the config, in the order in which the validator looks. */
  lemma ReportedFirst(cfg: QueueConfig, e: QueueError)
    requires FirstProblem(cfg, e)
    ensures Wrong(cfg, e) && forall other :: Wrong(cfg, other) ==> !PlaceOf(other).Before(PlaceOf(e))
  {
    forall other | Wrong(cfg, other) ensures !PlaceOf(other).Before(PlaceOf(e)) {
      if PlaceOf(other).Before(PlaceOf(e)) { NothingEarlier(cfg, e, other); }
    }
  }
}
