/** IIS blue-green: builds go to the slot that is not served, and the site is repointed. */
module BlueGreen {
  import opened Results

  type Files = map<string, string>

  /** The directories that exist, where the site points ("" when there is no site) and what the
      marker file names ("" when it is missing or empty). */
  datatype State = State(dirs: map<string, Files>, path: string, marker: string)

  /** A copy into a slot, and where the site pointed while it ran. */
  datatype Write = Write(slot: string, served: string)

  /** How a swap script fares; restarting the pool comes between repointing and the marker. */
  datatype SwapFate = Swapped | FailsBefore | FailsAfterRepoint | FailsInMarker(left: string)

  /** A failing copy leaves any tree, or none, in the slot. */
  datatype Copying = Copied | Torn(left: Option<Files>)

  datatype Plan = Plan(ensure: bool, created: bool, validate: bool, read: bool, build: Files, copy: Copying,
                       validateSlot: bool, swap: SwapFate, smoke: bool, swapBack: SwapFate)

  datatype Stage = Ensure | Validate | ReadActive | NoActive | CopySlot | ValidateSlot | Swap | Smoke

  function SlotB(physical: string): string {
    physical + ".blue"
  }

  /** The slot a deploy may write and a rollback goes to. */
  function Inactive(physical: string, active: string): (r: string)
    requires physical != ""
    ensures r != active
    ensures r == physical || r == SlotB(physical)
  {
    if active == "" || active == SlotB(physical) then physical else SlotB(physical)
  }

  /** What the read-active script prints. */
  function Active(s: State, physical: string): string {
    if s.marker != "" && s.marker in s.dirs then s.marker
    else if physical in s.dirs then physical
    else ""
  }

  predicate CanSwap(s: State, slot: string) {
    slot in s.dirs && s.dirs[slot] != map[] && s.path != ""
  }

  /** What a swap script leaves behind. */
  function SwapTo(s: State, slot: string, fate: SwapFate): State {
    if !CanSwap(s, slot) then s
    else match fate
      case FailsBefore => s
      case FailsAfterRepoint => s.(path := slot)
      case FailsInMarker(left) => s.(path := slot, marker := left)
      case Swapped => s.(path := slot, marker := slot)
  }

  // ----- the invariant -----

  /** The site serves the slot recorded as active; before the first deploy there is neither. */
  ghost predicate Agree(s: State, physical: string) {
    s.path == Active(s, physical) || (s.path == "" && s.marker == "")
  }

  ghost predicate Kept(s: State, physical: string) {
    Agree(s, physical) && (s.marker == "" || s.marker in s.dirs)
  }

  /** The state once the physical directory and the site exist. */
  function EnsuredSite(s: State, physical: string): State {
    s.(dirs := if physical in s.dirs then s.dirs else s.dirs[physical := map[]],
       path := if s.path == "" then physical else s.path)
  }

  lemma EnsuredKept(s: State, physical: string)
    requires Kept(s, physical) && physical != ""
    ensures var e := EnsuredSite(s, physical);
            && Kept(e, physical) && e.path == Active(e, physical) != "" && e.path in e.dirs
            && Kept(s.(dirs := e.dirs), physical)
  {
  }

  // ----- the scripts -----

  class Site {
    const physical: string
    var dirs: map<string, Files>
    var path: string
    var marker: string
    ghost var writes: seq<Write>

    constructor (physical: string, dirs: map<string, Files>, path: string, marker: string)
      ensures this.physical == physical && Now() == State(dirs, path, marker) && writes == []
    {
      this.physical, this.dirs, this.path, this.marker, writes := physical, dirs, path, marker, [];
    }

    ghost function Now(): State
      reads this
    {
      State(dirs, path, marker)
    }

    /** Creates what is missing; a failing script may have created the directory. */
    method EnsureSite(works: bool, created: bool)
      modifies this`dirs, this`path
      ensures Now() == if works then EnsuredSite(old(Now()), physical)
                       else if created then old(Now()).(dirs := EnsuredSite(old(Now()), physical).dirs)
                       else old(Now())
      ensures dirs == if (works || created) && physical !in old(dirs) then old(dirs)[physical := map[]] else old(dirs)
      ensures path == if works && old(path) == "" then physical else old(path)
    {
      if (works || created) && physical !in dirs {
        dirs := dirs[physical := map[]];
      }
      if works && path == "" {
        path := physical;
      }
    }

    method ReadActiveSlot() returns (active: string)
      ensures active == Active(Now(), physical)
      ensures active == if marker != "" && marker in dirs then marker else if physical in dirs then physical else ""
    {
      if marker != "" && marker in dirs {
        return marker;
      }
      if physical in dirs {
        return physical;
      }
      return "";
    }

    method CopyTo(slot: string, build: Files, fate: Copying) returns (ok: bool)
      modifies this`dirs, this`writes
      ensures ok == fate.Copied?
      ensures dirs == if ok then old(dirs)[slot := build]
                      else if fate.left.Some? then old(dirs)[slot := fate.left.value] else old(dirs) - {slot}
      ensures writes == old(writes) + [Write(slot, path)]
    {
      writes := writes + [Write(slot, path)];
      ok := fate.Copied?;
      if ok {
        dirs := dirs[slot := build];
      } else {
        dirs := match fate.left case Some(files) => dirs[slot := files] case None => dirs - {slot};
      }
    }

    method SwapSlot(slot: string, fate: SwapFate) returns (ok: bool)
      modifies this`path, this`marker
      ensures ok == (CanSwap(old(Now()), slot) && fate.Swapped?)
      ensures Now() == SwapTo(old(Now()), slot, fate)
      ensures var can := slot in dirs && dirs[slot] != map[] && old(path) != "";
              && ok == (can && fate.Swapped?)
              && path == (if can && !fate.FailsBefore? then slot else old(path))
              && marker == (if !can then old(marker)
                            else match fate
                              case FailsInMarker(left) => left
                              case Swapped => slot
                              case _ => old(marker))
    {
      if slot !in dirs || dirs[slot] == map[] || path == "" || fate.FailsBefore? {
        return false;
      }
      path := slot;
      if fate.FailsAfterRepoint? {
        return false;
      }
      marker := if fate.FailsInMarker? then fate.left else slot;
      return fate.Swapped?;
    }

    /** The compensating swap; its failure is only logged. */
    method SwapBack(active: string, fate: SwapFate)
      modifies this`path, this`marker
      ensures Now() == if active == "" then old(Now()) else SwapTo(old(Now()), active, fate)
    {
      if active == "" {
        return;
      }
      var _ := SwapSlot(active, fate);
    }

    method Deploy(plan: Plan) returns (r: Result<string, Stage>)
      requires physical != ""
      modifies this
      ensures Deployed(physical, plan, old(Now()), Now(), r)
      ensures Kept(old(Now()), physical) ==> old(writes) <= writes && ServedUntouched(writes[|old(writes)|..])
      ensures (|| old(path) == ""
               || old(path) == if old(marker) != "" && old(marker) in old(dirs) then old(marker) else physical)
              && (old(path) == "" ==> old(marker) == "") && (old(marker) == "" || old(marker) in old(dirs)) ==>
                forall i | |old(writes)| <= i < |writes| :: writes[i].slot != writes[i].served
      // It reports the first step that does not work, and succeeds exactly when all do, an empty
      // build being refused by the swap.
      ensures var active := if old(marker) != "" && (old(marker) in old(dirs) || old(marker) == physical)
                            then old(marker) else physical;
              r == (if !plan.ensure then Err(Ensure)
                    else if !plan.validate then Err(Validate)
                    else if !plan.read then Err(ReadActive)
                    else if !plan.copy.Copied? then Err(CopySlot)
                    else if !plan.validateSlot then Err(ValidateSlot)
                    else if plan.build == map[] || !plan.swap.Swapped? then Err(Swap)
                    else if !plan.smoke then Err(Smoke)
                    else Ok(if active == physical + ".blue" then physical else physical + ".blue"))
      // Nothing but the physical directory and the slot that is not active is written.
      ensures var was := if physical in old(dirs) then old(dirs) else old(dirs)[physical := map[]];
              var active := if old(marker) != "" && old(marker) in was then old(marker) else physical;
              var target := if active == physical + ".blue" then physical else physical + ".blue";
              dirs == (if !plan.ensure then (if plan.created then was else old(dirs))
                       else if !plan.validate || !plan.read then was
                       else match plan.copy
                         case Copied => was[target := plan.build]
                         case Torn(Some(files)) => was[target := files]
                         case Torn(None) => was - {target})
      // Up to the swap the site and the marker stay; a success moves both to the written slot.
      ensures r.Err? && r.error in {Ensure, Validate, ReadActive, CopySlot, ValidateSlot} ==>
                && path == (if plan.ensure && old(path) == "" then physical else old(path)) && marker == old(marker)
      ensures r.Ok? ==> path == r.value && marker == r.value
      // A failed swap or smoke test is compensated: if that goes through, what was active is served
      // and recorded again, with the files it had.
      ensures r == Err(Swap) || r == Err(Smoke) ==>
                var was := if physical in old(dirs) then old(dirs) else old(dirs)[physical := map[]];
                var active := if old(marker) != "" && old(marker) in was then old(marker) else physical;
                plan.swapBack.Swapped? && active in was && was[active] != map[] ==>
                  && path == active && marker == active && active in dirs && dirs[active] == was[active]
      ensures r == Err(Swap) || r == Err(Smoke) ==>
                var was := if physical in old(dirs) then old(dirs) else old(dirs)[physical := map[]];
                var active := if old(marker) != "" && old(marker) in was then old(marker) else physical;
                var target := if active == physical + ".blue" then physical else physical + ".blue";
                var moved := plan.build != map[] && !plan.swap.FailsBefore?;
                var undone := active in was && was[active] != map[] && !plan.swapBack.FailsBefore?;
                && path == (if undone then active
                            else if moved then target
                            else if old(path) == "" then physical else old(path))
                && marker == (if undone && plan.swapBack.Swapped? then active
                              else if undone && plan.swapBack.FailsInMarker? then plan.swapBack.left
                              else if moved && plan.swap.Swapped? then target
                              else if moved && plan.swap.FailsInMarker? then plan.swap.left
                              else old(marker))
    {
      r := Release(plan);
      DeployReports(physical, plan, old(Now()), Now(), r);
      DeployStaysOrMoves(physical, plan, old(Now()), Now(), r);
      if r == Err(Swap) || r == Err(Smoke) {
        DeployCompensates(physical, plan, old(Now()), Now(), r);
        DeployEndsAt(physical, plan, old(Now()), Now(), r);
      }
    }

    /** The scripts of that deploy. */
    method Release(plan: Plan) returns (r: Result<string, Stage>)
      requires physical != ""
      modifies this
      ensures Deployed(physical, plan, old(Now()), Now(), r)
      ensures Kept(old(Now()), physical) ==> old(writes) <= writes && ServedUntouched(writes[|old(writes)|..])
      ensures (|| old(path) == ""
               || old(path) == if old(marker) != "" && old(marker) in old(dirs) then old(marker) else physical)
              && (old(path) == "" ==> old(marker) == "") && (old(marker) == "" || old(marker) in old(dirs)) ==>
                forall i | |old(writes)| <= i < |writes| :: writes[i].slot != writes[i].served
    {
      EnsureSite(plan.ensure, plan.created);
      if !plan.ensure {
        return Err(Ensure);
      }
      if !plan.validate {
        return Err(Validate);
      }
      r := DeploySlot(plan);
      if Kept(old(Now()), physical) {
        EnsuredKept(old(Now()), physical);
      }
    }

    method DeploySlot(plan: Plan) returns (r: Result<string, Stage>)
      requires physical != "" && physical in dirs
      modifies this
      ensures SlotDeployed(physical, plan, old(Now()), Now(), r)
      ensures old(writes) <= writes
      ensures old(path) == Active(old(Now()), physical) ==> ServedUntouched(writes[|old(writes)|..])
    {
      if !plan.read {
        return Err(ReadActive);
      }
      var active := ReadActiveSlot();
      var target := Inactive(physical, active);
      var copied := CopyTo(target, plan.build, plan.copy);
      assert writes[|old(writes)|..] == [Write(target, path)];
      if !copied {
        return Err(CopySlot);
      }
      if !plan.validateSlot {
        return Err(ValidateSlot);
      }
      var swapped := SwapSlot(target, plan.swap);
      if !swapped {
        SwapBack(active, plan.swapBack);
        return Err(Swap);
      }
      if !plan.smoke {
        SwapBack(active, plan.swapBack);
        return Err(Smoke);
      }
      return Ok(target);
    }

    method Rollback(plan: Plan) returns (r: Result<string, Stage>)
      requires physical != ""
      modifies this
      ensures RolledBack(physical, plan, old(Now()), Now(), r)
      ensures writes == old(writes)
      // It reports the first step that does not work, and succeeds exactly when all do.
      ensures var active := if old(marker) != "" && old(marker) in dirs then old(marker)
                            else if physical in dirs then physical else "";
              var other := if active == physical + ".blue" then physical else physical + ".blue";
              r == (if !plan.read then Err(ReadActive)
                    else if active == "" then Err(NoActive)
                    else if other !in dirs || dirs[other] == map[] || old(path) == "" || !plan.swap.Swapped?
                    then Err(Swap)
                    else if !plan.smoke then Err(Smoke)
                    else Ok(other))
      // It writes no file; a success moves site and marker to the other slot.
      ensures dirs == old(dirs)
      ensures r.Ok? ==> path == r.value && marker == r.value
      ensures r == Err(ReadActive) || r == Err(NoActive) ==> path == old(path) && marker == old(marker)
      // A failed swap is left as it is; a failed smoke test is compensated.
      ensures r == Err(Swap) ==>
                var active := if old(marker) != "" && old(marker) in dirs then old(marker) else physical;
                var other := if active == physical + ".blue" then physical else physical + ".blue";
                var moved := other in dirs && dirs[other] != map[] && old(path) != "" && !plan.swap.FailsBefore?;
                && path == (if moved then other else old(path))
                && marker == (if moved && plan.swap.FailsInMarker? then plan.swap.left else old(marker))
      ensures r == Err(Smoke) ==>
                var active := if old(marker) != "" && old(marker) in dirs then old(marker) else physical;
                var other := if active == physical + ".blue" then physical else physical + ".blue";
                var back := active in dirs && dirs[active] != map[] && !plan.swapBack.FailsBefore?;
                && path == (if back then active else other)
                && marker == (if !back then other
                              else match plan.swapBack
                                case Swapped => active
                                case FailsInMarker(left) => left
                                case _ => other)
    {
      if !plan.read {
        return Err(ReadActive);
      }
      var active := ReadActiveSlot();
      if active == "" {
        return Err(NoActive);
      }
      var other := Inactive(physical, active);
      var swapped := SwapSlot(other, plan.swap);
      if !swapped {
        return Err(Swap);
      }
      if !plan.smoke {
        SwapBack(active, plan.swapBack);
        return Err(Smoke);
      }
      return Ok(other);
    }
  }

  ghost predicate ServedUntouched(writes: seq<Write>) {
    forall i | 0 <= i < |writes| :: writes[i].slot != writes[i].served
  }

  // ----- what the operations may do -----

  /** The slot after the copy of a deploy. */
  function Written(s: State, slot: string, plan: Plan): State {
    s.(dirs := match plan.copy
               case Copied => s.dirs[slot := plan.build]
               case Torn(Some(files)) => s.dirs[slot := files]
               case Torn(None) => s.dirs - {slot})
  }

  ghost predicate SlotDeployed(physical: string, plan: Plan, a: State, b: State, r: Result<string, Stage>)
    requires physical != ""
  {
    var active := Active(a, physical);
    var target := Inactive(physical, active);
    var w := Written(a, target, plan);
    if !plan.read then r == Err(ReadActive) && b == a
    else if !plan.copy.Copied? then r == Err(CopySlot) && b == w
    else if !plan.validateSlot then r == Err(ValidateSlot) && b == w
    else if !CanSwap(w, target) || !plan.swap.Swapped? then
      r == Err(Swap) && b == SwapTo(SwapTo(w, target, plan.swap), active, plan.swapBack)
    else if !plan.smoke then
      r == Err(Smoke) && b == SwapTo(w.(path := target, marker := target), active, plan.swapBack)
    else r == Ok(target) && b == w.(path := target, marker := target)
  }

  ghost predicate Deployed(physical: string, plan: Plan, a: State, b: State, r: Result<string, Stage>)
    requires physical != ""
  {
    var e := EnsuredSite(a, physical);
    if !plan.ensure then r == Err(Ensure) && b == (if plan.created then a.(dirs := e.dirs) else a)
    else if !plan.validate then r == Err(Validate) && b == e
    else SlotDeployed(physical, plan, e, b, r)
  }

  ghost predicate RolledBack(physical: string, plan: Plan, a: State, b: State, r: Result<string, Stage>)
    requires physical != ""
  {
    var active := Active(a, physical);
    var other := Inactive(physical, active);
    if !plan.read then r == Err(ReadActive) && b == a
    else if active == "" then r == Err(NoActive) && b == a
    else if !CanSwap(a, other) || !plan.swap.Swapped? then r == Err(Swap) && b == SwapTo(a, other, plan.swap)
    else if !plan.smoke then r == Err(Smoke) && b == SwapTo(a.(path := other, marker := other), active, plan.swapBack)
    else r == Ok(other) && b == a.(path := other, marker := other)
  }

  /** What a deploy reports and writes. */
  lemma DeployReports(physical: string, plan: Plan, a: State, b: State, r: Result<string, Stage>)
    requires physical != "" && Deployed(physical, plan, a, b, r)
    ensures var active := if a.marker != "" && (a.marker in a.dirs || a.marker == physical) then a.marker else physical;
            r == (if !plan.ensure then Err(Ensure)
                  else if !plan.validate then Err(Validate)
                  else if !plan.read then Err(ReadActive)
                  else if !plan.copy.Copied? then Err(CopySlot)
                  else if !plan.validateSlot then Err(ValidateSlot)
                  else if plan.build == map[] || !plan.swap.Swapped? then Err(Swap)
                  else if !plan.smoke then Err(Smoke)
                  else Ok(if active == physical + ".blue" then physical else physical + ".blue"))
    ensures var was := if physical in a.dirs then a.dirs else a.dirs[physical := map[]];
            var active := if a.marker != "" && a.marker in was then a.marker else physical;
            var target := if active == physical + ".blue" then physical else physical + ".blue";
            b.dirs == (if !plan.ensure then (if plan.created then was else a.dirs)
                     else if !plan.validate || !plan.read then was
                     else match plan.copy
                       case Copied => was[target := plan.build]
                       case Torn(Some(files)) => was[target := files]
                       case Torn(None) => was - {target})
  {
    SlotsOf(physical, a);
  }

  /** Where a deploy leaves site and marker before and after a swap that is not compensated. */
  lemma DeployStaysOrMoves(physical: string, plan: Plan, a: State, b: State, r: Result<string, Stage>)
    requires physical != "" && Deployed(physical, plan, a, b, r)
    ensures r.Err? && r.error in {Ensure, Validate, ReadActive, CopySlot, ValidateSlot} ==>
              && b.path == (if plan.ensure && a.path == "" then physical else a.path) && b.marker == a.marker
    ensures r.Ok? ==> b.path == r.value && b.marker == r.value
  {
  }

  /** What a compensated deploy serves and records. */
  lemma DeployCompensates(physical: string, plan: Plan, a: State, b: State, r: Result<string, Stage>)
    requires physical != "" && Deployed(physical, plan, a, b, r)
    requires r == Err(Swap) || r == Err(Smoke)
    ensures var was := if physical in a.dirs then a.dirs else a.dirs[physical := map[]];
            var active := if a.marker != "" && a.marker in was then a.marker else physical;
            plan.swapBack.Swapped? && active in was && was[active] != map[] ==>
              && b.path == active && b.marker == active && active in b.dirs && b.dirs[active] == was[active]
  {
    DeployEndsAt(physical, plan, a, b, r);
    DeployReports(physical, plan, a, b, r);
    CopyBeforeSwap(physical, plan, a, b, r);
  }

  /** The slots of a deploy, spelled out. */
  lemma SlotsOf(physical: string, a: State)
    requires physical != ""
    ensures var was := if physical in a.dirs then a.dirs else a.dirs[physical := map[]];
            var active := if a.marker != "" && a.marker in was then a.marker else physical;
            var e := EnsuredSite(a, physical);
            && e.dirs == was && Active(e, physical) == active && e.marker == a.marker
            && e.path == (if a.path == "" then physical else a.path) != ""
            && Inactive(physical, active) == if active == physical + ".blue" then physical else physical + ".blue"
  {
  }

  /** Where a swap and the compensating one leave the site, spelled out. */
  lemma SwapsEndAt(w: State, target: string, swap: SwapFate, active: string, back: SwapFate)
    requires w.path != "" && target != ""
    ensures var moved := target in w.dirs && w.dirs[target] != map[] && !swap.FailsBefore?;
            var undone := active in w.dirs && w.dirs[active] != map[] && !back.FailsBefore?;
            var b := SwapTo(SwapTo(w, target, swap), active, back);
            && b.path == (if undone then active else if moved then target else w.path)
            && b.marker == (if undone && back.Swapped? then active
                            else if undone && back.FailsInMarker? then back.left
                            else if moved && swap.Swapped? then target
                            else if moved && swap.FailsInMarker? then swap.left
                            else w.marker)
  {
    AfterSwap(w, target, swap);
    AfterSwap(SwapTo(w, target, swap), active, back);
  }

  /** Where a deploy with a failed swap or smoke test leaves the site. */
  lemma DeployEndsAt(physical: string, plan: Plan, a: State, b: State, r: Result<string, Stage>)
    requires physical != "" && Deployed(physical, plan, a, b, r)
    requires r == Err(Swap) || r == Err(Smoke)
    ensures var was := if physical in a.dirs then a.dirs else a.dirs[physical := map[]];
            var active := if a.marker != "" && a.marker in was then a.marker else physical;
            var target := if active == physical + ".blue" then physical else physical + ".blue";
            var moved := plan.build != map[] && !plan.swap.FailsBefore?;
            var undone := active in was && was[active] != map[] && !plan.swapBack.FailsBefore?;
            && b.path == (if undone then active
                          else if moved then target
                          else if a.path == "" then physical else a.path)
            && b.marker == (if undone && plan.swapBack.Swapped? then active
                            else if undone && plan.swapBack.FailsInMarker? then plan.swapBack.left
                            else if moved && plan.swap.Swapped? then target
                            else if moved && plan.swap.FailsInMarker? then plan.swap.left
                            else a.marker)
  {
    SlotsOf(physical, a);
    DeployedBySwaps(physical, plan, a, b, r);
    var e := EnsuredSite(a, physical);
    var active := Active(e, physical);
    var target := Inactive(physical, active);
    var w := Written(e, target, plan);
    CopyBeforeSwap(physical, plan, a, b, r);
    SwapsEndAt(w, target, plan.swap, active, plan.swapBack);
  }

  /** A deploy that came to its swap has copied the build. */
  lemma CopyBeforeSwap(physical: string, plan: Plan, a: State, b: State, r: Result<string, Stage>)
    requires physical != "" && Deployed(physical, plan, a, b, r)
    requires r == Err(Swap) || r == Err(Smoke)
    ensures plan.copy.Copied? && (r == Err(Smoke) ==> plan.swap.Swapped?)
  {
  }

  // ----- consequences -----

  /** The compensating swap goes through: the slot to go back to is not empty and the script
      works. */
  ghost predicate Compensates(physical: string, plan: Plan, a: State) {
    plan.swapBack.Swapped? && Active(a, physical) in a.dirs && a.dirs[Active(a, physical)] != map[]
  }

  /** A deploy keeps the agreement provided a needed compensating swap goes through. A failed
      one leaves the served slot and its content as they were; a successful one serves exactly
      the build. */
  lemma DeployKeepsAgreement(physical: string, plan: Plan, a: State, b: State, r: Result<string, Stage>)
    requires physical != "" && Kept(a, physical) && Deployed(physical, plan, a, b, r)
    requires r == Err(Swap) || r == Err(Smoke) ==> Compensates(physical, plan, EnsuredSite(a, physical))
    ensures Kept(b, physical)
    ensures var e := EnsuredSite(a, physical);
            match r
            case Ok(slot) => b.path == slot != e.path && slot in b.dirs && b.dirs[slot] == plan.build
            case Err(stage) =>
              stage == Ensure || (b.path == e.path && b.path in b.dirs && b.dirs[b.path] == e.dirs[e.path])
  {
    EnsuredKept(a, physical);
  }

  /** A rollback keeps the agreement when its own swap did not stop half way and its
      compensating swap, if needed, goes through. It moves no file. */
  lemma RollbackKeepsAgreement(physical: string, plan: Plan, a: State, b: State, r: Result<string, Stage>)
    requires physical != "" && Kept(a, physical) && RolledBack(physical, plan, a, b, r)
    requires r == Err(Swap) ==> !CanSwap(a, Inactive(physical, Active(a, physical))) || plan.swap.FailsBefore?
    requires r == Err(Smoke) ==> Compensates(physical, plan, a)
    ensures Kept(b, physical) && b.dirs == a.dirs
    ensures r.Err? ==> b.path == a.path
    ensures r.Ok? ==> b.path == r.value != a.path
  {
  }

  // ----- exactly when site and marker agree afterwards -----

  /** The swap repointed the site, whatever came after that. */
  predicate Repoints(s: State, slot: string, fate: SwapFate) {
    CanSwap(s, slot) && !fate.FailsBefore?
  }

  /** What a torn marker write left still names the slot: its path, or nothing where that means
      the physical directory. Unless sound is asked for, a path that does not exist also does. */
  predicate Names(s: State, physical: string, left: string, slot: string, sound: bool) {
    left == slot || (slot == physical && (left == "" || (!sound && left !in s.dirs)))
  }

  /** A swap that is not compensated is clean when it did not begin, went through, or tore the
      marker into something that names its slot; not when it stopped between the two. */
  predicate Clean(s: State, physical: string, slot: string, fate: SwapFate, sound: bool) {
    !CanSwap(s, slot) || fate.FailsBefore? || fate.Swapped?
    || (fate.FailsInMarker? && Names(s, physical, fate.left, slot, sound))
  }

  /** A failed swap and its compensation: the compensation goes through; or it stops before the
      marker, and the failed swap tore no other name into it; or it tears the right name into it;
      or it does not begin, and the failed swap is clean by itself. */
  predicate CleanUndone(s: State, physical: string, slot: string, swap: SwapFate, active: string, back: SwapFate,
                        sound: bool) {
    if !Repoints(s, active, back) then !Repoints(s, slot, swap) || Clean(s, physical, slot, swap, sound)
    else match back
      case FailsAfterRepoint =>
        Repoints(s, slot, swap) && swap.FailsInMarker? ==> Names(s, physical, swap.left, active, sound)
      case FailsInMarker(left) => Names(s, physical, left, active, sound)
      case _ => true
  }

  predicate RollbackClean(physical: string, plan: Plan, a: State, r: Result<string, Stage>, sound: bool)
    requires physical != ""
  {
    match r
    case Err(Swap) => Clean(a, physical, Inactive(physical, Active(a, physical)), plan.swap, sound)
    case Err(Smoke) => Clean(a, physical, Active(a, physical), plan.swapBack, sound)
    case _ => true
  }

  predicate DeployClean(physical: string, plan: Plan, a: State, r: Result<string, Stage>, sound: bool)
    requires physical != ""
  {
    var e := EnsuredSite(a, physical);
    var active := Active(e, physical);
    var target := Inactive(physical, active);
    var w := Written(e, target, plan);
    match r
    case Err(Swap) => CleanUndone(w, physical, target, plan.swap, active, plan.swapBack, sound)
    case Err(Smoke) => Clean(w, physical, active, plan.swapBack, sound)
    case _ => true
  }

  lemma AfterSwap(s: State, slot: string, fate: SwapFate)
    ensures !Repoints(s, slot, fate) ==> SwapTo(s, slot, fate) == s
    ensures Repoints(s, slot, fate) ==>
              SwapTo(s, slot, fate) == (match fate
                                        case FailsInMarker(left) => s.(path := slot, marker := left)
                                        case Swapped => s.(path := slot, marker := slot)
                                        case _ => s.(path := slot))
  {
  }

  /** A marker leads to an existing slot exactly when it names it. */
  lemma NamesLeads(physical: string, s: State, slot: string)
    requires slot != "" && slot in s.dirs && s.path == slot
    ensures Agree(s, physical) <==> Names(s, physical, s.marker, slot, false)
    ensures Kept(s, physical) <==> Names(s, physical, s.marker, slot, true)
  {
  }

  /** One swap away from a slot whose state is in order. */
  lemma CleanIff(physical: string, s: State, slot: string, fate: SwapFate)
    requires Kept(s, physical) && slot != "" && slot != Active(s, physical)
    ensures Agree(SwapTo(s, slot, fate), physical) <==> Clean(s, physical, slot, fate, false)
    ensures Kept(SwapTo(s, slot, fate), physical) <==> Clean(s, physical, slot, fate, true)
  {
    AfterSwap(s, slot, fate);
    if Repoints(s, slot, fate) && !fate.FailsAfterRepoint? {
      NamesLeads(physical, SwapTo(s, slot, fate), slot);
    }
  }

  lemma CleanUndoneIff(physical: string, s: State, slot: string, swap: SwapFate, active: string, back: SwapFate)
    requires Kept(s, physical) && slot != "" && slot != active && active == Active(s, physical) != ""
    requires !CanSwap(s, slot) || !swap.Swapped?
    ensures var b := SwapTo(SwapTo(s, slot, swap), active, back);
            && (Agree(b, physical) <==> CleanUndone(s, physical, slot, swap, active, back, false))
            && (Kept(b, physical) <==> CleanUndone(s, physical, slot, swap, active, back, true))
  {
    var mid := SwapTo(s, slot, swap);
    AfterSwap(s, slot, swap);
    AfterSwap(mid, active, back);
    CleanIff(physical, s, slot, swap);
    if Repoints(s, active, back) {
      NamesLeads(physical, SwapTo(mid, active, back), active);
      StillNamed(physical, s, active);
    }
  }

  /** The marker of a state in order names the active slot. */
  lemma StillNamed(physical: string, s: State, active: string)
    requires Kept(s, physical) && active == Active(s, physical) != ""
    ensures Names(s, physical, s.marker, active, true)
  {
  }

  /** Exactly when site and marker agree after a rollback, for every way it can end; Kept says
      that the marker names no directory that does not exist either. */
  lemma RollbackAgreesIff(physical: string, plan: Plan, a: State, b: State, r: Result<string, Stage>)
    requires physical != "" && Kept(a, physical) && RolledBack(physical, plan, a, b, r)
    ensures Agree(b, physical) <==> RollbackClean(physical, plan, a, r, false)
    ensures Kept(b, physical) <==> RollbackClean(physical, plan, a, r, true)
  {
    var active := Active(a, physical);
    var other := Inactive(physical, active);
    CleanIff(physical, a, other, plan.swap);
    if r == Err(Smoke) {
      SmokeCleanIff(physical, a, other, active, plan.swapBack);
    }
  }

  /** The compensation of a swap that went through. */
  lemma SmokeCleanIff(physical: string, s: State, slot: string, active: string, back: SwapFate)
    requires physical != "" && slot != "" && active != "" && slot != active && CanSwap(s, slot)
    ensures var b := SwapTo(s.(path := slot, marker := slot), active, back);
            && (Agree(b, physical) <==> Clean(s, physical, active, back, false))
            && (Kept(b, physical) <==> Clean(s, physical, active, back, true))
  {
    CleanIff(physical, s.(path := slot, marker := slot), active, back);
  }

  /** Exactly when site and marker agree after a deploy, for every way it can end. */
  lemma DeployAgreesIff(physical: string, plan: Plan, a: State, b: State, r: Result<string, Stage>)
    requires physical != "" && Kept(a, physical) && Deployed(physical, plan, a, b, r)
    ensures Agree(b, physical) <==> DeployClean(physical, plan, a, r, false)
    ensures Kept(b, physical) <==> DeployClean(physical, plan, a, r, true)
  {
    EnsuredKept(a, physical);
    var e := EnsuredSite(a, physical);
    var active := Active(e, physical);
    var target := Inactive(physical, active);
    var w := Written(e, target, plan);
    WrittenKept(physical, e, target, plan);
    DeployedBySwaps(physical, plan, a, b, r);
    if r == Err(Swap) {
      CleanUndoneIff(physical, w, target, plan.swap, active, plan.swapBack);
    } else if r == Err(Smoke) {
      SmokeCleanIff(physical, w, target, active, plan.swapBack);
    }
  }

  /** Writing the inactive slot changes nothing about which one is active. */
  lemma WrittenKept(physical: string, e: State, target: string, plan: Plan)
    requires physical != "" && Kept(e, physical) && e.path == Active(e, physical) != "" && target != e.path
    ensures var w := Written(e, target, plan); Kept(w, physical) && w.path == Active(w, physical) == e.path
  {
  }

  lemma DeployedBySwaps(physical: string, plan: Plan, a: State, b: State, r: Result<string, Stage>)
    requires physical != "" && Deployed(physical, plan, a, b, r)
    ensures var e := EnsuredSite(a, physical); var active := Active(e, physical);
            var target := Inactive(physical, active); var w := Written(e, target, plan);
            match r
            case Err(Ensure) => b == a || b == a.(dirs := e.dirs)
            case Err(Swap) =>
              b == SwapTo(SwapTo(w, target, plan.swap), active, plan.swapBack)
              && (!CanSwap(w, target) || !plan.swap.Swapped?)
            case Err(Smoke) => CanSwap(w, target)
                && b == SwapTo(w.(path := target, marker := target), active, plan.swapBack)
            case Err(_) => b == e || b == w
            case Ok(_) => b == w.(path := target, marker := target) && CanSwap(w, target)
  {
  }

  predicate IsSlot(physical: string, path: string) {
    path == physical || path == SlotB(physical)
  }

  /** With both pointing at slots, the next deploy writes the served slot exactly when site and
      marker disagree. */
  lemma NextDeployOverwritesIff(physical: string, s: State)
    requires physical != "" && IsSlot(physical, s.path) && IsSlot(physical, Active(s, physical))
    ensures Inactive(physical, Active(s, physical)) == s.path <==> !Agree(s, physical)
  {
  }

  /** A rollback stopped between repointing and the marker, and one whose failed smoke test was
      followed by such a half-done compensating swap: both end with the served slot next in
      line to be overwritten. */
  lemma HalfRollbacks(physical: string, files: Files, plan: Plan)
    requires physical != "" && files != map[] && plan.read
    ensures var a := State(map[physical := files, SlotB(physical) := files], physical, "");
            var halfway := plan.(swap := FailsAfterRepoint);
            var undone := plan.(swap := Swapped, smoke := false, swapBack := FailsAfterRepoint);
            && Kept(a, physical)
            && RolledBack(physical, halfway, a, a.(path := SlotB(physical)), Err(Swap))
            && Inactive(physical, Active(a.(path := SlotB(physical)), physical)) == SlotB(physical)
            && RolledBack(physical, undone, a, a.(marker := SlotB(physical)), Err(Smoke))
            && Inactive(physical, Active(a.(marker := SlotB(physical)), physical)) == physical
  {
  }

  /** On a first deploy the slot to go back to is empty, so a swap that stopped half way is not
      compensated whatever the fate of the compensating swap. */
  lemma FirstDeployStaysHalfway(physical: string, plan: Plan, b: State, r: Result<string, Stage>)
    requires physical != "" && Deployed(physical, plan, State(map[], "", ""), b, r)
    requires r == Err(Swap) && plan.build != map[] && plan.swap.FailsAfterRepoint?
    ensures !Agree(b, physical) && Inactive(physical, Active(b, physical)) == b.path
  {
  }

  // ----- runs -----

  datatype Op = DeployOp(plan: Plan, r: Result<string, Stage>) | RollbackOp(plan: Plan, r: Result<string, Stage>)

  ghost predicate Ran(physical: string, op: Op, a: State, b: State)
    requires physical != ""
  {
    match op
    case DeployOp(plan, r) => Deployed(physical, plan, a, b, r)
    case RollbackOp(plan, r) => RolledBack(physical, plan, a, b, r)
  }

  /** The exact condition of the operation. */
  ghost predicate Recoverable(physical: string, op: Op, a: State)
    requires physical != ""
  {
    match op
    case DeployOp(plan, r) => DeployClean(physical, plan, a, r, true)
    case RollbackOp(plan, r) => RollbackClean(physical, plan, a, r, true)
  }

  ghost predicate RunOf(physical: string, ops: seq<Op>, states: seq<State>)
    requires physical != ""
  {
    |states| == |ops| + 1 && forall i | 0 <= i < |ops| :: Ran(physical, ops[i], states[i], states[i + 1])
  }

  /** Over every run, site and marker agree after each of the first n operations exactly when
      each of those meets its condition. */
  lemma {:induction false} RunKeepsAgreement(physical: string, ops: seq<Op>, states: seq<State>, n: nat)
    requires physical != "" && RunOf(physical, ops, states) && n <= |ops| && Kept(states[0], physical)
    ensures (forall i | 0 <= i <= n :: Kept(states[i], physical)) <==>
            forall i | 0 <= i < n :: Recoverable(physical, ops[i], states[i])
  {
    if n > 0 {
      RunKeepsAgreement(physical, ops, states, n - 1);
      if Kept(states[n - 1], physical) {
        OpKeepsIff(physical, ops[n - 1], states[n - 1], states[n]);
      }
    }
  }

  lemma OpKeepsIff(physical: string, op: Op, a: State, b: State)
    requires physical != "" && Kept(a, physical) && Ran(physical, op, a, b)
    ensures Kept(b, physical) <==> Recoverable(physical, op, a)
  {
    match op
    case DeployOp(plan, r) => DeployAgreesIff(physical, plan, a, b, r);
    case RollbackOp(plan, r) => RollbackAgreesIff(physical, plan, a, b, r);
  }

  /** What an operator can see: every needed compensation goes through, and a rollback's own
      swap fails only before repointing. */
  ghost predicate Compensated(physical: string, op: Op, a: State)
    requires physical != ""
  {
    match op
    case DeployOp(plan, r) => r == Err(Swap) || r == Err(Smoke) ==>
        Compensates(physical, plan, EnsuredSite(a, physical))
    case RollbackOp(plan, r) =>
      && (r == Err(Swap) ==> !CanSwap(a, Inactive(physical, Active(a, physical))) || plan.swap.FailsBefore?)
      && (r == Err(Smoke) ==> Compensates(physical, plan, a))
  }

  /** Over every such run site and marker agree after each operation, a failed operation leaves
      the served path where it was, and a successful one moves it. */
  lemma {:induction false} CompensatedRunAgrees(physical: string, ops: seq<Op>, states: seq<State>, n: nat)
    requires physical != "" && RunOf(physical, ops, states) && n <= |ops| && Kept(states[0], physical)
    requires forall i | 0 <= i < |ops| :: Compensated(physical, ops[i], states[i])
    ensures Kept(states[n], physical)
    ensures forall i | 0 <= i < n ::
              var served := EnsuredSite(states[i], physical).path;
              if ops[i].r.Ok? then states[i + 1].path == ops[i].r.value != served
              else states[i + 1].path == served || states[i + 1].path == states[i].path
  {
    if n > 0 {
      CompensatedRunAgrees(physical, ops, states, n - 1);
      var op, a, b := ops[n - 1], states[n - 1], states[n];
      assert Ran(physical, op, a, b) && Compensated(physical, op, a);
      match op
      case DeployOp(plan, r) => DeployKeepsAgreement(physical, plan, a, b, r);
      case RollbackOp(plan, r) => RollbackKeepsAgreement(physical, plan, a, b, r);
    }
  }

  /** Over every run whose earlier operations meet their conditions, the slot a deploy writes is
      not the one the site serves meanwhile. */
  lemma NeverWritesServedSlot(physical: string, ops: seq<Op>, states: seq<State>, k: nat)
    requires physical != "" && RunOf(physical, ops, states) && k < |ops| && Kept(states[0], physical)
    requires forall i | 0 <= i < k :: Recoverable(physical, ops[i], states[i])
    requires ops[k].DeployOp?
    ensures var e := EnsuredSite(states[k], physical);
            e.path == Active(e, physical) && Inactive(physical, Active(e, physical)) != e.path
  {
    RunKeepsAgreement(physical, ops, states, k);
    EnsuredKept(states[k], physical);
  }

  /** A successful deploy followed by a successful rollback serves the content from before. */
  lemma DeployThenRollbackRestores(physical: string, deploy: Plan, rollback: Plan, a: State, b: State, c: State,
                                   r: Result<string, Stage>, q: Result<string, Stage>)
    requires physical != "" && Kept(a, physical) && (a.path == physical || a.path == SlotB(physical))
    requires Deployed(physical, deploy, a, b, r) && RolledBack(physical, rollback, b, c, q) && r.Ok? && q.Ok?
    ensures c.path == a.path && c.path in c.dirs
    ensures c.path in a.dirs ==> c.dirs[c.path] == a.dirs[a.path]
    ensures Kept(c, physical)
  {
    EnsuredKept(a, physical);
  }
}
