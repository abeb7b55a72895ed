/**
 * The bounded drafting loop. The drafter and the layout preflight are arbitrary: their answers are
 * given per call, and nothing relates them to each other or to the packages they see.
 */
module DraftLoop {
  import opened Wrappers
  import opened LayoutRepair

  const MAX_REQUESTS: nat := 3

  datatype Mode = CodexQuality | LocalPrivate | UnknownMode

  datatype Context = Context(ready: bool, claimPlan: seq<string>, manifest: string, target: Target)

  /** One answer of the drafter. */
  datatype Draft = Draft(attempted: bool, package: Option<Package>)

  /** One answer of the preflight: it cannot run, or it lists the overflowing zones. */
  datatype Preflight = Stopped | Overflows(zones: seq<string>)

  type Drafter = nat -> Draft
  type Prober = nat -> Preflight

  datatype Event =
    | Progress(phase: string, percent: int, request: int)
    | Requested(feedback: seq<string>, previous: Option<Package>)
    | Probed(package: Package, answer: Preflight)

  datatype Reason = DrafterUnavailable | PreflightUnavailable | FitPolicyMissing | FitUnresolved

  datatype Payload =
    | Blocked
    | Unavailable(reason: Reason, requests: nat, overflows: seq<string>, repairs: seq<string>)
    | ForReview(package: Package, requests: nat, overflows: seq<string>, repairs: seq<string>)

  /** The drafter returns a package only from an attempted request. */
  ghost predicate Honest(drafter: Drafter) {
    forall k :: drafter(k).package.Some? ==> drafter(k).attempted
  }

  function CodexOnly(zones: seq<string>): seq<string> {
    if zones == [] then [] else (if zones[0] in CODEX_ZONES then [zones[0]] else []) + CodexOnly(zones[1..])
  }

  function Unsupported(zones: seq<string>): seq<string> {
    if zones == [] then [] else (if zones[0] in CODEX_ZONES then [] else [zones[0]]) + Unsupported(zones[1..])
  }

  /** Between them, the two filters lose nothing; without unsupported zones the other one is everything. */
  lemma {:induction false} FiltersPartition(zones: seq<string>)
    ensures forall z :: z in CodexOnly(zones) <==> z in zones && z in CODEX_ZONES
    ensures forall z :: z in Unsupported(zones) <==> z in zones && z !in CODEX_ZONES
    ensures Unsupported(zones) == [] ==> CodexOnly(zones) == zones
  {
    if zones != [] {
      FiltersPartition(zones[1..]);
      assert zones == [zones[0]] + zones[1..];
    }
  }

  function Clamp(percent: int): int {
    if percent < 0 then 0 else if percent > 100 then 100 else percent
  }

  // ---------- what a trace says ----------

  function Requests(trace: seq<Event>): nat {
    if trace == [] then 0
    else Requests(trace[..|trace| - 1]) + if trace[|trace| - 1].Requested? then 1 else 0
  }

  function Probes(trace: seq<Event>): nat {
    if trace == [] then 0
    else Probes(trace[..|trace| - 1]) + if trace[|trace| - 1].Probed? then 1 else 0
  }

  function LastPercent(trace: seq<Event>): int {
    if trace == [] then 0
    else
      match trace[|trace| - 1]
      case Progress(_, percent, _) => percent
      case _ => LastPercent(trace[..|trace| - 1])
  }

  function LastProbe(trace: seq<Event>): Option<Event> {
    if trace == [] then None
    else
      match trace[|trace| - 1]
      case Probed(_, _) => Some(trace[|trace| - 1])
      case _ => LastProbe(trace[..|trace| - 1])
  }

  /** Reported percentages never decrease and stay between 0 and 100. */
  predicate Monotone(trace: seq<Event>) {
    trace == [] ||
    (Monotone(trace[..|trace| - 1]) &&
     match trace[|trace| - 1]
     case Progress(_, percent, _) => LastPercent(trace[..|trace| - 1]) <= percent <= 100
     case _ => true)
  }

  /** Each preflight answer is that of its call, and a request after the first names only drafter-owned zones. */
  predicate Faithful(trace: seq<Event>, prober: Prober) {
    trace == [] ||
    (Faithful(trace[..|trace| - 1], prober) &&
     match trace[|trace| - 1]
     case Probed(_, answer) => answer == prober(Probes(trace[..|trace| - 1]))
     case Requested(feedback, previous) =>
       && (forall z :: z in feedback ==> z in CODEX_ZONES)
       && (Requests(trace[..|trace| - 1]) == 0 <==> previous == None)
       && (previous.Some? ==> feedback != [] && LastProbe(trace[..|trace| - 1]) == Some(Probed(previous.value, Overflows(feedback))))
     case _ => true)
  }

  lemma {:induction false} Appended(trace: seq<Event>, event: Event)
    ensures (trace + [event])[..|trace + [event]| - 1] == trace
  {
  }

  ghost predicate Good(trace: seq<Event>, prober: Prober) {
    Monotone(trace) && Faithful(trace, prober)
  }

  /** `_emit_progress` */
  function Emit(trace: seq<Event>, phase: string, percent: int, request: int): (after: seq<Event>) {
    trace + [Progress(phase, Clamp(percent), if request < 0 then 0 else request)]
  }

  lemma {:induction false} EmitIsGood(trace: seq<Event>, phase: string, percent: int, request: int, prober: Prober)
    requires Good(trace, prober) && LastPercent(trace) <= percent && 0 <= percent <= 100
    ensures var after := Emit(trace, phase, percent, request);
      Good(after, prober) && LastPercent(after) == percent && Requests(after) == Requests(trace)
      && Probes(after) == Probes(trace) && LastProbe(after) == LastProbe(trace)
  {
    Appended(trace, Emit(trace, phase, percent, request)[|trace|]);
  }

  lemma {:induction false} ProbeIsGood(trace: seq<Event>, package: Package, prober: Prober)
    requires Good(trace, prober)
    ensures var after := trace + [Probed(package, prober(Probes(trace)))];
      Good(after, prober) && LastPercent(after) == LastPercent(trace) && Requests(after) == Requests(trace)
      && Probes(after) == Probes(trace) + 1 && LastProbe(after) == Some(Probed(package, prober(Probes(trace))))
  {
    Appended(trace, Probed(package, prober(Probes(trace))));
  }

  lemma {:induction false} RequestIsGood(trace: seq<Event>, feedback: seq<string>, previous: Option<Package>, prober: Prober)
    requires Good(trace, prober)
    requires forall z :: z in feedback ==> z in CODEX_ZONES
    requires Requests(trace) == 0 <==> previous == None
    requires previous.Some? ==> feedback != [] && LastProbe(trace) == Some(Probed(previous.value, Overflows(feedback)))
    ensures var after := trace + [Requested(feedback, previous)];
      Good(after, prober) && LastPercent(after) == LastPercent(trace) && Requests(after) == Requests(trace) + 1
      && Probes(after) == Probes(trace) && LastProbe(after) == LastProbe(trace)
  {
    Appended(trace, Requested(feedback, previous));
  }

  // ---------- one preflight with its repairs ----------

  datatype Check =
    | CheckStopped(repairs: seq<string>)
    | PolicyMissing(unsupported: seq<string>, repairs: seq<string>)
    | Checked(package: Package, overflows: seq<string>, repairs: seq<string>)

  /** The answer that counts for a package whose first preflight is number `p`: that of the second one if a repair was made. */
  function LastAnswer(package: Package, target: Target, prober: Prober, p: nat): Preflight {
    match prober(p)
    case Stopped => Stopped
    case Overflows(zones) => if Repair(package, zones, target).1 == [] then prober(p) else prober(p + 1)
  }

  /** The package as the last of these preflights saw it, and the repairs made to it. */
  function Shown(package: Package, target: Target, prober: Prober, p: nat): (Package, seq<string>) {
    match prober(p)
    case Stopped => (package, [])
    case Overflows(zones) => Repair(package, zones, target)
  }

  function ProbesUsed(package: Package, target: Target, prober: Prober, p: nat): nat {
    if Shown(package, target, prober, p).1 == [] then 1 else 2
  }

  /** What the preflights come to. */
  function CheckOf(package: Package, target: Target, prober: Prober, p: nat): Check {
    var (shown, repairs) := Shown(package, target, prober, p);
    match LastAnswer(package, target, prober, p)
    case Stopped => CheckStopped(repairs)
    case Overflows(zones) =>
      if Unsupported(zones) != [] then PolicyMissing(Unsupported(zones), repairs) else Checked(shown, zones, repairs)
  }

  /** Probe, repair deterministically, probe again if that changed anything, and reject unsupported zones. */
  method CheckPackage(package: Package, target: Target, prober: Prober, before: seq<Event>) returns (check: Check, trace: seq<Event>)
    requires Good(before, prober) && target.month < 100
    ensures Good(trace, prober) && before <= trace
    ensures Requests(trace) == Requests(before) && LastPercent(trace) == LastPercent(before)
    ensures check.Checked? ==> LastProbe(trace) == Some(Probed(check.package, Overflows(check.overflows)))
    ensures check.Checked? ==> forall z :: z in check.overflows ==> z in CODEX_ZONES
    ensures check.PolicyMissing? ==> check.unsupported != [] && forall z :: z in check.unsupported ==> z !in CODEX_ZONES
    ensures check == CheckOf(package, target, prober, Probes(before))
    ensures Probes(trace) == Probes(before) + ProbesUsed(package, target, prober, Probes(before))
  {
    var answer := prober(Probes(before));
    ProbeIsGood(before, package, prober);
    trace := before + [Probed(package, answer)];
    if answer.Stopped? { return CheckStopped([]), trace; }
    RepairIsIdempotent(package, answer.zones, target);
    var repaired, repairs := ApplyRepairs(package, answer.zones, target);
    if repairs != [] {
      answer := prober(Probes(trace));
      ProbeIsGood(trace, repaired, prober);
      trace := trace + [Probed(repaired, answer)];
      if answer.Stopped? { return CheckStopped(repairs), trace; }
    }
    FiltersPartition(answer.zones);
    var unsupported := Unsupported(answer.zones);
    if unsupported != [] { return PolicyMissing(unsupported, repairs), trace; }
    check := Checked(repaired, CodexOnly(answer.zones), repairs);
  }

  /** The two keys that finalising adds. */
  function Finalised(package: Package, manifest: string, keys: seq<string>): Package {
    package.(sourceManifest := Some(manifest), factKeys := Some(keys))
  }

  function Step(requests: nat): int {
    var percent := 68 + (requests + 1) * 6;
    if percent < 88 then percent else 88
  }

  // ---------- the loop ----------

  /** What a codex-mode run promises of its result and its trace. */
  ghost predicate CodexResult(payload: Payload, trace: seq<Event>, context: Context) {
    match payload
    case ForReview(package, requests, overflows, _) =>
      && overflows == [] && requests == Requests(trace) && 1 <= requests <= MAX_REQUESTS
      && exists checked ::
           && LastProbe(trace) == Some(Probed(checked, Overflows([])))
           && package == Finalised(checked, context.manifest, context.claimPlan)
    case Unavailable(FitUnresolved, requests, overflows, _) =>
      && requests == Requests(trace) == MAX_REQUESTS && overflows != []
      && exists checked :: LastProbe(trace) == Some(Probed(checked, Overflows(overflows)))
    case Unavailable(_, requests, _, _) => requests <= Requests(trace) <= MAX_REQUESTS
    case Blocked => false
  }

  /** What one request to the drafter came to. */
  datatype Asked = NoPackage | Answered(check: Check)

  // ---------- which answer comes, from drafter and preflight alone ----------

  /** All that decides a codex-mode run. */
  datatype World = World(drafter: Drafter, prober: Prober, target: Target)

  /** The number of preflights before request `k` is sent. */
  function ProbesBefore(w: World, k: nat): nat {
    if k == 0 then 0
    else
      var p := ProbesBefore(w, k - 1);
      match w.drafter(k - 1).package
      case None => p
      case Some(package) => p + ProbesUsed(package, w.target, w.prober, p)
  }

  /** The last preflight answer to the package of request `k`, if there is a package. */
  function AnswerTo(w: World, k: nat): Option<Preflight> {
    match w.drafter(k).package
    case None => None
    case Some(package) => Some(LastAnswer(package, w.target, w.prober, ProbesBefore(w, k)))
  }

  /** The package of request `k` after its repairs, and these. */
  function ShownIn(w: World, k: nat): (Package, seq<string>)
    requires w.drafter(k).package.Some?
  {
    Shown(w.drafter(k).package.value, w.target, w.prober, ProbesBefore(w, k))
  }

  /** Some zones overflow, and the drafter owns all of them. */
  predicate CanRepair(answer: Option<Preflight>) {
    && answer.Some? && answer.value.Overflows? && answer.value.zones != []
    && forall z :: z in answer.value.zones ==> z in CODEX_ZONES
  }

  predicate HasForeign(answer: Option<Preflight>) {
    answer.Some? && answer.value.Overflows? && exists z :: z in answer.value.zones && z !in CODEX_ZONES
  }

  /** Every request before `k` brought a package that overflows in drafter-owned zones only. */
  predicate Reaches(w: World, k: nat) {
    forall j :: 0 <= j < k ==> CanRepair(AnswerTo(w, j))
  }

  function RepairsBefore(w: World, k: nat): seq<string> {
    if k == 0 then []
    else RepairsBefore(w, k - 1) + if w.drafter(k - 1).package.None? then [] else ShownIn(w, k - 1).1
  }

  /** The overflows that the request before `k` left. */
  function OverflowsBefore(w: World, k: nat): seq<string>
    requires Reaches(w, k)
  {
    if k == 0 then [] else AnswerTo(w, k - 1).value.zones
  }

  /** The result of a run whose request `k` is the first that does not lead to another one. */
  function ResultAt(w: World, context: Context, k: nat): Payload
    requires Reaches(w, k) && !CanRepair(AnswerTo(w, k))
  {
    match AnswerTo(w, k)
    case None =>
      Unavailable(DrafterUnavailable, k + (if w.drafter(k).attempted then 1 else 0), OverflowsBefore(w, k), RepairsBefore(w, k))
    case Some(Stopped) => Unavailable(PreflightUnavailable, k + 1, [], RepairsBefore(w, k + 1))
    case Some(Overflows(zones)) =>
      if zones == [] then ForReview(Finalised(ShownIn(w, k).0, context.manifest, context.claimPlan), k + 1, [], RepairsBefore(w, k + 1))
      else Unavailable(FitPolicyMissing, k + 1, Unsupported(zones), RepairsBefore(w, k + 1))
  }

  /** The result is the one of the first request that leads to no other, or the last overflows after three. */
  ghost predicate IsResult(payload: Payload, w: World, context: Context) {
    && (forall k: nat :: k < MAX_REQUESTS && Reaches(w, k) && !CanRepair(AnswerTo(w, k)) ==> payload == ResultAt(w, context, k))
    && (Reaches(w, MAX_REQUESTS) ==>
          payload == Unavailable(FitUnresolved, MAX_REQUESTS, OverflowsBefore(w, MAX_REQUESTS), RepairsBefore(w, MAX_REQUESTS)))
  }

  lemma {:induction false} FirstDecides(w: World, k: nat) returns (j: nat)
    ensures j <= k && Reaches(w, j) && (j < k ==> !CanRepair(AnswerTo(w, j)))
  {
    j := 0;
    while j < k && CanRepair(AnswerTo(w, j))
      invariant j <= k && Reaches(w, j)
    {
      j := j + 1;
    }
  }

  /**
   * When each answer comes. A draft for review comes exactly if some request of the first three brings a package that
   * fits, and each one before brought a package that overflows in drafter-owned zones only; it is that package. The
   * four refusals come exactly for a missing package, a preflight that stops, a zone the drafter does not own, and
   * three overflowing packages.
   */
  lemma {:induction false} ResultDecides(payload: Payload, w: World, context: Context)
    requires IsResult(payload, w, context)
    ensures payload.ForReview? <==> exists k: nat :: k < 3 && Reaches(w, k) && AnswerTo(w, k) == Some(Overflows([]))
    ensures payload.Unavailable? && payload.reason == DrafterUnavailable <==>
      exists k: nat :: k < 3 && Reaches(w, k) && w.drafter(k).package == None
    ensures payload.Unavailable? && payload.reason == PreflightUnavailable <==>
      exists k: nat :: k < 3 && Reaches(w, k) && AnswerTo(w, k) == Some(Stopped)
    ensures payload.Unavailable? && payload.reason == FitPolicyMissing <==>
      exists k: nat :: k < 3 && Reaches(w, k) && HasForeign(AnswerTo(w, k))
    ensures payload.Unavailable? && payload.reason == FitUnresolved <==> Reaches(w, 3)
    ensures forall k: nat :: k < 3 && Reaches(w, k) && AnswerTo(w, k) == Some(Overflows([])) ==>
      && payload == ForReview(Finalised(ShownIn(w, k).0, context.manifest, context.claimPlan), k + 1, [], RepairsBefore(w, k + 1))
    ensures payload != Blocked
  {
    var k := FirstDecides(w, 3);
    if k < 3 {
      ResultMeans(w, context, k);
      if AnswerTo(w, k) == Some(Overflows([])) { FitIs(w, k, ShownIn(w, k).0, context); }
      forall j: nat | j < 3 && Reaches(w, j) && !CanRepair(AnswerTo(w, j))
        ensures j == k
      {
        OneDecides(w, j, k);
      }
      assert !Reaches(w, 3);
    } else {
      NoneDecides(w);
    }
  }

  lemma {:induction false} ResultMeans(w: World, context: Context, k: nat)
    requires Reaches(w, k) && !CanRepair(AnswerTo(w, k))
    ensures var payload, answer := ResultAt(w, context, k), AnswerTo(w, k);
      && (answer == None <==> w.drafter(k).package == None) && payload != Blocked
      && (payload.ForReview? <==> answer == Some(Overflows([])))
      && (payload.Unavailable? ==>
            && (payload.reason == DrafterUnavailable <==> answer == None)
            && (payload.reason == PreflightUnavailable <==> answer == Some(Stopped))
            && (payload.reason == FitPolicyMissing <==> HasForeign(answer))
            && payload.reason != FitUnresolved)
  {
    match AnswerTo(w, k)
    case None =>
    case Some(Stopped) =>
    case Some(Overflows(zones)) => assert zones != [] ==> HasForeign(AnswerTo(w, k));
  }

  lemma {:induction false} NoneDecides(w: World)
    requires Reaches(w, 3)
    ensures forall k: nat :: k < 3 ==> CanRepair(AnswerTo(w, k)) && w.drafter(k).package != None && !HasForeign(AnswerTo(w, k))
  {
  }

  lemma {:induction false} OneDecides(w: World, j: nat, k: nat)
    requires Reaches(w, j) && !CanRepair(AnswerTo(w, j)) && Reaches(w, k) && !CanRepair(AnswerTo(w, k))
    ensures j == k
  {
  }

  // ---------- the requests ----------

  /** Where the loop stands after `k` requests. */
  ghost predicate Standing(w: World, k: nat, package: Package, overflows: seq<string>, repairs: seq<string>, probes: nat) {
    && k > 0 && Reaches(w, k - 1) && (overflows != [] ==> Reaches(w, k))
    && Shows(w, k - 1, package, overflows)
    && repairs == RepairsBefore(w, k) && probes == ProbesBefore(w, k)
  }

  /** The package of request `k`, as last probed, and what overflowed then. */
  ghost predicate Shows(w: World, k: nat, package: Package, overflows: seq<string>) {
    w.drafter(k).package.Some? && AnswerTo(w, k) == Some(Overflows(overflows)) && package == ShownIn(w, k).0
  }

  /** What request `k` comes to. */
  ghost predicate IsAnswer(asked: Asked, requests: nat, w: World, k: nat) {
    match w.drafter(k).package
    case None => asked == NoPackage && requests == k + if w.drafter(k).attempted then 1 else 0
    case Some(package) =>
      asked == Answered(CheckOf(package, w.target, w.prober, ProbesBefore(w, k))) && requests == k + 1
  }

  /** A check stops exactly for a preflight that stops or a zone that the drafter does not own. */
  lemma {:induction false} CheckStops(package: Package, target: Target, prober: Prober, p: nat)
    ensures var check, answer := CheckOf(package, target, prober, p), LastAnswer(package, target, prober, p);
      var (shown, repairs) := Shown(package, target, prober, p);
      && check.repairs == repairs
      && (check.CheckStopped? <==> answer == Stopped)
      && (check.PolicyMissing? <==> HasForeign(Some(answer)))
      && (check.PolicyMissing? ==> check.unsupported == Unsupported(answer.zones))
      && (check.Checked? ==> answer == Overflows(check.overflows) && check.package == shown)
      && (check.Checked? && check.overflows != [] <==> CanRepair(Some(answer)))
  {
    var answer := LastAnswer(package, target, prober, p);
    if answer.Overflows? { UnsupportedMeans(answer.zones); }
  }

  /** What the request before it brought decides whether request `k` stops the run. */
  lemma {:induction false} StopIs(w: World, asked: Asked, requests: nat, k: nat, context: Context)
    requires IsAnswer(asked, requests, w, k) && Reaches(w, k)
    requires StopOf(asked, requests, OverflowsBefore(w, k), RepairsBefore(w, k)).Some?
    ensures !CanRepair(AnswerTo(w, k))
    ensures StopOf(asked, requests, OverflowsBefore(w, k), RepairsBefore(w, k)).value == ResultAt(w, context, k)
  {
    if w.drafter(k).package.Some? { CheckStops(w.drafter(k).package.value, w.target, w.prober, ProbesBefore(w, k)); }
  }

  lemma {:induction false} GoesOn(w: World, asked: Asked, requests: nat, k: nat)
    requires IsAnswer(asked, requests, w, k) && Reaches(w, k)
    requires StopOf(asked, requests, OverflowsBefore(w, k), RepairsBefore(w, k)) == None
    ensures Standing(w, k + 1, asked.check.package, asked.check.overflows, RepairsBefore(w, k) + asked.check.repairs, ProbesBefore(w, k + 1))
    ensures requests == k + 1
  {
    AnswerShows(w, asked, requests, k);
    RepairsNext(w, k);
    if asked.check.overflows != [] { ReachesNext(w, k); }
  }

  lemma {:induction false} AnswerShows(w: World, asked: Asked, requests: nat, k: nat)
    requires IsAnswer(asked, requests, w, k) && asked.Answered? && asked.check.Checked?
    ensures Shows(w, k, asked.check.package, asked.check.overflows) && asked.check.repairs == ShownIn(w, k).1
    ensures asked.check.overflows != [] ==> CanRepair(AnswerTo(w, k))
  {
    CheckStops(w.drafter(k).package.value, w.target, w.prober, ProbesBefore(w, k));
  }

  lemma {:induction false} ReachesNext(w: World, k: nat)
    requires Reaches(w, k) && CanRepair(AnswerTo(w, k))
    ensures Reaches(w, k + 1)
  {
  }

  lemma {:induction false} RepairsNext(w: World, k: nat)
    requires w.drafter(k).package.Some?
    ensures RepairsBefore(w, k + 1) == RepairsBefore(w, k) + ShownIn(w, k).1
  {
  }

  lemma {:induction false} ProbesNext(w: World, k: nat)
    requires w.drafter(k).package.Some?
    ensures ProbesBefore(w, k + 1) == ProbesBefore(w, k) + ProbesUsed(w.drafter(k).package.value, w.target, w.prober, ProbesBefore(w, k))
  {
  }

  lemma {:induction false} UnsupportedMeans(zones: seq<string>)
    ensures Unsupported(zones) == [] <==> forall z :: z in zones ==> z in CODEX_ZONES
  {
    FiltersPartition(zones);
    if Unsupported(zones) != [] { assert Unsupported(zones)[0] in Unsupported(zones); }
  }

  /** The stop, if there is one, that an answer leads to. */
  function StopOf(asked: Asked, requests: nat, overflows: seq<string>, repairs: seq<string>): Option<Payload> {
    match asked
    case NoPackage => Some(Unavailable(DrafterUnavailable, requests, overflows, repairs))
    case Answered(CheckStopped(more)) => Some(Unavailable(PreflightUnavailable, requests, [], repairs + more))
    case Answered(PolicyMissing(unsupported, more)) => Some(Unavailable(FitPolicyMissing, requests, unsupported, repairs + more))
    case Answered(Checked(_, _, _)) => None
  }

  /** What holds between two requests: the last preflight was of this package and found these overflows. */
  ghost predicate Between(trace: seq<Event>, prober: Prober, asked: Asked, requests: nat) {
    && Good(trace, prober) && requests <= Requests(trace)
    && (asked.Answered? ==> requests == Requests(trace))
    && (asked.Answered? && asked.check.Checked? ==>
          && LastProbe(trace) == Some(Probed(asked.check.package, Overflows(asked.check.overflows)))
          && forall z :: z in asked.check.overflows ==> z in CODEX_ZONES)
  }

  method FirstRequest(context: Context, drafter: Drafter, prober: Prober, before: seq<Event>)
    returns (asked: Asked, requests: nat, trace: seq<Event>)
    requires Honest(drafter) && context.target.month < 100
    requires Good(before, prober) && Requests(before) == 0 && LastPercent(before) <= 25 && Probes(before) == 0
    ensures before <= trace && Between(trace, prober, asked, requests)
    ensures Requests(trace) == 1 && LastPercent(trace) <= 65
    ensures IsAnswer(asked, requests, World(drafter, prober, context.target), 0)
    ensures asked.Answered? ==> Probes(trace) == ProbesBefore(World(drafter, prober, context.target), 1)
  {
    EmitIsGood(before, "provider_request", 25, 1, prober);
    trace := Emit(before, "provider_request", 25, 1);
    RequestIsGood(trace, [], None, prober);
    trace := trace + [Requested([], None)];
    var result := drafter(0);
    requests := if result.attempted then 1 else 0;
    if result.package.None? { return NoPackage, requests, trace; }
    EmitIsGood(trace, "validate_model_output", 55, requests, prober);
    trace := Emit(trace, "validate_model_output", 55, requests);
    EmitIsGood(trace, "template_preflight", 65, requests, prober);
    trace := Emit(trace, "template_preflight", 65, requests);
    ProbesNext(World(drafter, prober, context.target), 0);
    var check;
    check, trace := CheckPackage(result.package.value, context.target, prober, trace);
    asked := Answered(check);
  }

  method RepairRequest(context: Context, drafter: Drafter, prober: Prober, package: Package, overflows: seq<string>, sent: nat, before: seq<Event>)
    returns (asked: Asked, requests: nat, trace: seq<Event>)
    requires Honest(drafter) && context.target.month < 100
    requires Good(before, prober) && 1 <= sent == Requests(before) < MAX_REQUESTS && LastPercent(before) <= 68 + sent * 6
    requires overflows != [] && forall z :: z in overflows ==> z in CODEX_ZONES
    requires LastProbe(before) == Some(Probed(package, Overflows(overflows)))
    requires Probes(before) == ProbesBefore(World(drafter, prober, context.target), sent)
    ensures before <= trace && Between(trace, prober, asked, requests)
    ensures Requests(trace) == sent + 1 && LastPercent(trace) <= 68 + (sent + 1) * 6
    ensures IsAnswer(asked, requests, World(drafter, prober, context.target), sent)
    ensures asked.Answered? ==> Probes(trace) == ProbesBefore(World(drafter, prober, context.target), sent + 1)
  {
    EmitIsGood(before, "provider_repair", Step(sent), sent + 1, prober);
    trace := Emit(before, "provider_repair", Step(sent), sent + 1);
    RequestIsGood(trace, overflows, Some(package), prober);
    trace := trace + [Requested(overflows, Some(package))];
    var result := drafter(sent);
    requests := sent + if result.attempted then 1 else 0;
    if result.package.None? { return NoPackage, requests, trace; }
    ProbesNext(World(drafter, prober, context.target), sent);
    var check;
    check, trace := CheckPackage(result.package.value, context.target, prober, trace);
    asked := Answered(check);
  }

  lemma {:induction false} ResultIs(w: World, context: Context, k: nat)
    requires k < MAX_REQUESTS && Reaches(w, k) && !CanRepair(AnswerTo(w, k))
    ensures IsResult(ResultAt(w, context, k), w, context)
  {
    forall j: nat | j < MAX_REQUESTS && Reaches(w, j) && !CanRepair(AnswerTo(w, j))
      ensures j == k
    {
      OneDecides(w, j, k);
    }
  }

  /** A request that stops the run decides its result. */
  lemma {:induction false} StopEnds(w: World, asked: Asked, requests: nat, k: nat, context: Context)
    requires k < MAX_REQUESTS && IsAnswer(asked, requests, w, k) && Reaches(w, k)
    requires StopOf(asked, requests, OverflowsBefore(w, k), RepairsBefore(w, k)).Some?
    ensures IsResult(StopOf(asked, requests, OverflowsBefore(w, k), RepairsBefore(w, k)).value, w, context)
  {
    StopIs(w, asked, requests, k, context);
    ResultIs(w, context, k);
  }

  /** A package that fits, and three that do not, end it as well. */
  lemma {:induction false} LoopEnds(w: World, k: nat, package: Package, overflows: seq<string>, repairs: seq<string>, probes: nat, context: Context)
    requires Standing(w, k, package, overflows, repairs, probes) && k <= MAX_REQUESTS && (overflows != [] ==> k == MAX_REQUESTS)
    ensures IsResult(if overflows == [] then ForReview(Finalised(package, context.manifest, context.claimPlan), k, [], repairs)
                     else Unavailable(FitUnresolved, k, overflows, repairs), w, context)
  {
    if overflows == [] {
      FitEnds(w, k - 1, package, context);
    } else {
      ThreeOverflow(w, context);
    }
  }

  lemma {:induction false} FitEnds(w: World, k: nat, package: Package, context: Context)
    requires k < MAX_REQUESTS && Reaches(w, k) && Shows(w, k, package, [])
    ensures IsResult(ForReview(Finalised(package, context.manifest, context.claimPlan), k + 1, [], RepairsBefore(w, k + 1)), w, context)
  {
    FitIs(w, k, package, context);
    ResultIs(w, context, k);
  }

  lemma {:induction false} FitIs(w: World, k: nat, package: Package, context: Context)
    requires Reaches(w, k) && Shows(w, k, package, [])
    ensures !CanRepair(AnswerTo(w, k))
    ensures ResultAt(w, context, k)
      == ForReview(Finalised(package, context.manifest, context.claimPlan), k + 1, [], RepairsBefore(w, k + 1))
  {
  }

  lemma {:induction false} ThreeOverflow(w: World, context: Context)
    requires Reaches(w, MAX_REQUESTS)
    ensures IsResult(Unavailable(FitUnresolved, MAX_REQUESTS, OverflowsBefore(w, MAX_REQUESTS), RepairsBefore(w, MAX_REQUESTS)), w, context)
  {
  }

  /** Before the first request. */
  lemma {:induction false} AtStart(w: World)
    ensures Reaches(w, 0) && OverflowsBefore(w, 0) == [] && RepairsBefore(w, 0) == [] && ProbesBefore(w, 0) == 0
  {
  }

  /** What the trace says between two requests. */
  ghost predicate Drafting(trace: seq<Event>, prober: Prober, requests: nat, package: Package, overflows: seq<string>) {
    && Good(trace, prober) && 1 <= requests == Requests(trace) <= MAX_REQUESTS && LastPercent(trace) <= 68 + requests * 6
    && (forall z :: z in overflows ==> z in CODEX_ZONES)
    && LastProbe(trace) == Some(Probed(package, Overflows(overflows)))
  }

  /** Both progress reports that close a draft. */
  method Finish(package: Package, requests: nat, repairs: seq<string>, context: Context, prober: Prober, before: seq<Event>)
    returns (payload: Payload, trace: seq<Event>)
    requires Drafting(before, prober, requests, package, [])
    ensures Good(trace, prober) && before <= trace && CodexResult(payload, trace, context)
    ensures payload == ForReview(Finalised(package, context.manifest, context.claimPlan), requests, [], repairs)
  {
    EmitIsGood(before, "finalize_review", 94, requests, prober);
    trace := Emit(before, "finalize_review", 94, requests);
    EmitIsGood(trace, "complete", 100, requests, prober);
    trace := Emit(trace, "complete", 100, requests);
    payload := ForReview(Finalised(package, context.manifest, context.claimPlan), requests, [], repairs);
  }

  /** The body of the loop: one more request, and the stop it leads to, if it does. */
  method RepairOnce(context: Context, drafter: Drafter, prober: Prober, package: Package, overflows: seq<string>, repairs: seq<string>,
                    sent: nat, before: seq<Event>)
    returns (stop: Option<Payload>, next: Package, left: seq<string>, made: seq<string>, requests: nat, trace: seq<Event>)
    requires Honest(drafter) && context.target.month < 100 && overflows != [] && sent < MAX_REQUESTS
    requires Drafting(before, prober, sent, package, overflows)
    requires Standing(World(drafter, prober, context.target), sent, package, overflows, repairs, Probes(before))
    ensures before <= trace && Good(trace, prober)
    ensures stop.Some? ==>
      CodexResult(stop.value, trace, context) && IsResult(stop.value, World(drafter, prober, context.target), context)
    ensures stop == None ==>
      && requests == sent + 1 && Drafting(trace, prober, requests, next, left)
      && Standing(World(drafter, prober, context.target), requests, next, left, made, Probes(trace))
  {
    ghost var w := World(drafter, prober, context.target);
    var asked;
    asked, requests, trace := RepairRequest(context, drafter, prober, package, overflows, sent, before);
    stop := StopOf(asked, requests, overflows, repairs);
    if stop.Some? {
      StopEnds(w, asked, requests, sent, context);
      return stop, package, overflows, repairs, requests, trace;
    }
    GoesOn(w, asked, requests, sent);
    next, left, made := asked.check.package, asked.check.overflows, repairs + asked.check.repairs;
  }

  /** The codex-mode part: at most three requests, whatever drafter and preflight answer. */
  method DraftWithCodex(context: Context, drafter: Drafter, prober: Prober, before: seq<Event>) returns (payload: Payload, trace: seq<Event>)
    requires Honest(drafter) && context.target.month < 100
    requires Good(before, prober) && Requests(before) == 0 && LastPercent(before) <= 25 && Probes(before) == 0
    ensures Good(trace, prober) && before <= trace
    ensures CodexResult(payload, trace, context)
    ensures IsResult(payload, World(drafter, prober, context.target), context)
  {
    ghost var w := World(drafter, prober, context.target);
    AtStart(w);
    var asked, requests;
    asked, requests, trace := FirstRequest(context, drafter, prober, before);
    var stop := StopOf(asked, requests, [], []);
    if stop.Some? {
      StopEnds(w, asked, requests, 0, context);
      return stop.value, trace;
    }
    GoesOn(w, asked, requests, 0);
    var package, overflows, repairs := asked.check.package, asked.check.overflows, asked.check.repairs;

    while overflows != [] && requests < MAX_REQUESTS
      invariant before <= trace && Drafting(trace, prober, requests, package, overflows)
      invariant Standing(w, requests, package, overflows, repairs, Probes(trace))
      decreases MAX_REQUESTS - requests
    {
      stop, package, overflows, repairs, requests, trace :=
        RepairOnce(context, drafter, prober, package, overflows, repairs, requests, trace);
      if stop.Some? { return stop.value, trace; }
    }
    LoopEnds(w, requests, package, overflows, repairs, Probes(trace), context);
    if overflows != [] { return Unavailable(FitUnresolved, requests, overflows, repairs), trace; }
    payload, trace := Finish(package, requests, repairs, context, prober, trace);
  }

  /** The local answer: the repaired template with whatever still overflows, unless a preflight stops. */
  function LocalResult(package: Package, context: Context, prober: Prober, p: nat): Payload {
    var (shown, repairs) := Shown(package, context.target, prober, p);
    match LastAnswer(package, context.target, prober, p)
    case Stopped => Unavailable(PreflightUnavailable, 0, [], [])
    case Overflows(zones) => ForReview(Finalised(shown, context.manifest, []), 0, zones, repairs)
  }

  /** The local mode: the given template package, repaired, never a request to the drafter. */
  method DraftLocally(package: Package, context: Context, prober: Prober, before: seq<Event>) returns (payload: Payload, trace: seq<Event>)
    requires context.target.month < 100 && Good(before, prober)
    ensures Good(trace, prober) && before <= trace
    ensures Requests(trace) == Requests(before) && LastPercent(trace) == LastPercent(before)
    ensures payload.ForReview? ==> payload.requests == 0 && exists checked ::
      && LastProbe(trace) == Some(Probed(checked, Overflows(payload.overflows)))
      && payload.package == Finalised(checked, context.manifest, [])
    ensures payload == LocalResult(package, context, prober, Probes(before))
  {
    var answer := prober(Probes(before));
    ProbeIsGood(before, package, prober);
    trace := before + [Probed(package, answer)];
    if answer.Stopped? { return Unavailable(PreflightUnavailable, 0, [], []), trace; }
    RepairIsIdempotent(package, answer.zones, context.target);
    var repaired, repairs := ApplyRepairs(package, answer.zones, context.target);
    if repairs != [] {
      answer := prober(Probes(trace));
      ProbeIsGood(trace, repaired, prober);
      trace := trace + [Probed(repaired, answer)];
      if answer.Stopped? { return Unavailable(PreflightUnavailable, 0, [], []), trace; }
    }
    payload := ForReview(Finalised(repaired, context.manifest, []), 0, answer.zones, repairs);
  }

  /** `generate_application_draft_payload` */
  method GenerateDraft(context: Context, mode: Mode, template: Package, drafter: Drafter, prober: Prober)
    returns (payload: Payload, trace: seq<Event>)
    requires Honest(drafter) && context.target.month < 100
    ensures Monotone(trace) && Faithful(trace, prober) && Requests(trace) <= MAX_REQUESTS
    ensures payload == Blocked <==> !context.ready || mode == UnknownMode || (mode == CodexQuality && context.claimPlan == [])
    ensures payload != Blocked && mode == CodexQuality ==> CodexResult(payload, trace, context)
    ensures payload != Blocked && mode == CodexQuality ==> IsResult(payload, World(drafter, prober, context.target), context)
    ensures payload != Blocked && mode == LocalPrivate ==> payload == LocalResult(template, context, prober, 0)
    ensures mode != CodexQuality ==> Requests(trace) == 0
    ensures payload.ForReview? ==> exists checked, zones ::
      LastProbe(trace) == Some(Probed(checked, Overflows(zones))) && zones == payload.overflows
      && payload.package == Finalised(checked, context.manifest, if mode == CodexQuality then context.claimPlan else [])
  {
    EmitIsGood([], "verify_target", 5, 0, prober);
    trace := Emit([], "verify_target", 5, 0);
    EmitIsGood(trace, "bind_context", 12, 0, prober);
    trace := Emit(trace, "bind_context", 12, 0);
    if !context.ready || mode == UnknownMode { return Blocked, trace; }
    if mode == LocalPrivate {
      EmitIsGood(trace, "local_prepare", 55, 0, prober);
      trace := Emit(trace, "local_prepare", 55, 0);
      payload, trace := DraftLocally(template, context, prober, trace);
      EmitIsGood(trace, "complete", 100, 0, prober);
      trace := Emit(trace, "complete", 100, 0);
      return;
    }
    if context.claimPlan == [] { return Blocked, trace; }
    payload, trace := DraftWithCodex(context, drafter, prober, trace);
  }

  // ---------- the trace predicates, unfolded ----------

  /** A monotone trace is monotone at every pair of reports. */
  lemma {:induction false} MonotonePairs(trace: seq<Event>, i: nat, j: nat)
    requires Monotone(trace) && i < j < |trace| && trace[i].Progress? && trace[j].Progress?
    ensures trace[i].percent <= trace[j].percent
    decreases |trace|
  {
    var n := |trace| - 1;
    if j < n {
      MonotonePairs(trace[..n], i, j);
    } else {
      LastPercentBounds(trace[..n], i);
    }
  }

  lemma {:induction false} LastPercentBounds(trace: seq<Event>, i: nat)
    requires Monotone(trace) && i < |trace| && trace[i].Progress?
    ensures trace[i].percent <= LastPercent(trace)
    decreases |trace|
  {
    var n := |trace| - 1;
    if i < n { LastPercentBounds(trace[..n], i); }
  }
}
