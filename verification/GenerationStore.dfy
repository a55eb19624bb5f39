/** Generation-based storage of certificate material behind one atomic `current` link. */
module GenerationStores {
  import opened Options

  type Bytes = seq<bv8>

  const MAX_CERTIFICATE_BYTES := 10_240
  const MAX_PRIVATE_KEY_BYTES := 5_120
  const MAX_CHAIN_BYTES := 51_200

  datatype File = CERT | CHAIN | PRIVKEY

  datatype Material = Material(leaf: Bytes, chain: Bytes, key: Bytes)

  function Content(m: Material, file: File): Bytes {
    match file
    case CERT => m.leaf
    case CHAIN => m.chain
    case PRIVKEY => m.key
  }

  /** The files of one generation. */
  datatype Files = Files(cert: Option<Bytes>, chain: Option<Bytes>, key: Option<Bytes>)

  function Find(files: Files, file: File): Option<Bytes> {
    match file
    case CERT => files.cert
    case CHAIN => files.chain
    case PRIVKEY => files.key
  }

  const EMPTY := Files(None, None, None)

  datatype Link = Into(generation: string) | Outside

  /** One lineage directory: its generations, and its links by name; `current` is the published one. */
  datatype Tree = Tree(lineage: bool, archive: bool,
                       generations: map<string, Files>,
                       temporaries: map<string, Link>,
                       current: Option<Link>)

  datatype Commit = Commit(name: string, temporary: string, material: Material)

  // ----- reading -----

  datatype LoadError = NoCurrent | Escapes | NotADirectory | Unavailable(file: File) | TooLarge(file: File) | Malformed

  function Limit(file: File): nat {
    match file
    case CERT => MAX_CERTIFICATE_BYTES
    case CHAIN => MAX_CHAIN_BYTES
    case PRIVKEY => MAX_PRIVATE_KEY_BYTES
  }

  function Read(files: Files, file: File): Result<Bytes, LoadError> {
    var content := Find(files, file);
    if content.None? then Err(Unavailable(file))
    else if |content.value| > Limit(file) then Err(TooLarge(file))
    else Ok(content.value)
  }

  function Load(t: Tree, parses: Material -> bool): Result<Material, LoadError> {
    if t.current.None? then Err(NoCurrent)
    else if t.current.value.Outside? then Err(Escapes)
    else if t.current.value.generation !in t.generations then Err(NotADirectory)
    else
      var files := t.generations[t.current.value.generation];
      var leaf :- Read(files, CERT);
      var chain :- Read(files, CHAIN);
      var key :- Read(files, PRIVKEY);
      if parses(Material(leaf, chain, key)) then Ok(Material(leaf, chain, key)) else Err(Malformed)
  }

  // ----- committing, step by step -----

  datatype Step =
    | MakeLineage | MakeArchive | MakeGeneration | OwnGeneration
    | WriteFile(file: File) | MakeLink | ReplaceCurrent | OwnCurrent

  function StepCount(root: bool): nat { if root then 10 else 8 }

  /** The steps in their order; only root changes owners. */
  function StepAt(root: bool, k: nat): Step {
    var i := if root || k < 3 then k else k + 1;
    if i == 0 then MakeLineage else if i == 1 then MakeArchive else if i == 2 then MakeGeneration
    else if i == 3 then OwnGeneration
    else if i == 4 then WriteFile(CERT) else if i == 5 then WriteFile(CHAIN) else if i == 6 then WriteFile(PRIVKEY)
    else if i == 7 then MakeLink else if i == 8 then ReplaceCurrent else OwnCurrent
  }

  /** Steps whose exceptions the clean-up handler sees. */
  predicate Handled(step: Step) {
    step.WriteFile? || step.MakeLink? || step.ReplaceCurrent? || step.OwnCurrent?
  }

  function Write(files: Files, file: File, content: Bytes): Files {
    match file
    case CERT => files.(cert := Some(content))
    case CHAIN => files.(chain := Some(content))
    case PRIVKEY => files.(key := Some(content))
  }

  function Put(t: Tree, name: string, file: File, content: Bytes): Tree {
    if name in t.generations
    then t.(generations := t.generations[name := Write(t.generations[name], file, content)])
    else t
  }

  function Do(step: Step, t: Tree, c: Commit): Tree {
    match step
    case MakeLineage => t.(lineage := true)
    case MakeArchive => t.(archive := true)
    case MakeGeneration => t.(generations := t.generations[c.name := EMPTY])
    case OwnGeneration => t
    case WriteFile(file) => Put(t, c.name, file, Content(c.material, file))
    case MakeLink => t.(temporaries := t.temporaries[c.temporary := Into(c.name)])
    case ReplaceCurrent => t.(temporaries := t.temporaries - {c.temporary}, current := Some(Into(c.name)))
    case OwnCurrent => t
  }

  /**
   At most one step is struck: the process dies there, or an exception comes out
   of it.  A struck write leaves no file or a prefix of one; any other struck
   step has its `effect`, as when an interrupt arrives once the call is done, or
   none.  `cleaned` counts how far the clean-up handler got: three unlinks, then
   the removal of the directory.
   */
  datatype Fault = Fault(step: nat, raises: bool, written: Option<nat>, effect: bool, cleaned: nat)

  function Partly(step: Step, t: Tree, c: Commit, written: Option<nat>, effect: bool): Tree {
    if step.WriteFile? then
      var content := Content(c.material, step.file);
      if written.None? then t
      else Put(t, c.name, step.file, if written.value <= |content| then content[..written.value] else content)
    else if effect && !(step.MakeGeneration? && c.name in t.generations) then Do(step, t, c)
    else t
  }

  function Without(t: Tree, name: string, file: File): Tree {
    if name !in t.generations then t
    else
      var files := t.generations[name];
      t.(generations := t.generations[name := match file
        case CERT => files.(cert := None)
        case CHAIN => files.(chain := None)
        case PRIVKEY => files.(key := None)])
  }

  function Unlinked(files: Files, cleaned: nat): Files {
    Files(if cleaned >= 1 then None else files.cert,
          if cleaned >= 2 then None else files.chain,
          if cleaned >= 3 then None else files.key)
  }

  function Cleaned(t: Tree, name: string, cleaned: nat): Tree {
    if name !in t.generations then t
    else if cleaned >= 4 then t.(generations := t.generations - {name})
    else t.(generations := t.generations[name := Unlinked(t.generations[name], cleaned)])
  }

  datatype Outcome = Committed | AlreadyExists | Died | Raised

  function Struck(step: Step, t: Tree, c: Commit, fault: Fault): (Tree, Outcome) {
    var partly := Partly(step, t, c, fault.written, fault.effect);
    if !fault.raises then (partly, Died)
    else if Handled(step) then (Cleaned(partly, c.name, fault.cleaned), Raised)
    else (partly, Raised)
  }

  function Execute(t: Tree, c: Commit, root: bool, fault: Option<Fault>, k: nat): (Tree, Outcome)
    decreases StepCount(root) - k
  {
    if k >= StepCount(root) then (t, Committed)
    else
      var step := StepAt(root, k);
      if fault.Some? && fault.value.step == k then Struck(step, t, c, fault.value)
      else if step.MakeGeneration? && c.name in t.generations then (t, AlreadyExists)
      else Execute(Do(step, t, c), c, root, fault, k + 1)
  }

  function CommitUnder(t: Tree, c: Commit, root: bool, fault: Option<Fault>): (Tree, Outcome) {
    Execute(t, c, root, fault, 0)
  }

  // ----- what a commit promises -----

  /** The generation once its first `files` files are written in full. */
  function Staged(m: Material, files: nat): Files {
    Files(if files >= 1 then Some(m.leaf) else None,
          if files >= 2 then Some(m.chain) else None,
          if files >= 3 then Some(m.key) else None)
  }

  predicate Complete(t: Tree, name: string, m: Material) {
    name in t.generations
    && t.generations[name] == Staged(m, 3)
  }

  predicate OthersKept(before: Tree, after: Tree, name: string) {
    && (forall g | g in before.generations && g != name ::
          g in after.generations && after.generations[g] == before.generations[g])
    && (forall g | g in after.generations && g != name :: g in before.generations)
  }

  /** The old `current`, or the new generation with every file in full. */
  predicate Atomic(before: Tree, after: Tree, c: Commit) {
    && OthersKept(before, after, c.name)
    && (|| after.current == before.current
        || (after.current == Some(Into(c.name)) && Complete(after, c.name, c.material)))
  }

  /** `current` is absent or names an existing generation. */
  predicate Resolves(t: Tree) {
    t.current.Some? ==> t.current.value.Into? && t.current.value.generation in t.generations
  }

  /** The link was swapped before the strike, or by the step it struck. */
  predicate Swapped(root: bool, step: nat, effect: bool) {
    step > ReplaceAt(root) || (step == ReplaceAt(root) && effect)
  }

  /** An exception came once the link was swapped, and the handler already removed something. */
  predicate CleanedAfterReplace(root: bool, fault: Option<Fault>) {
    && fault.Some? && fault.value.raises && fault.value.cleaned >= 1
    && fault.value.step < StepCount(root) && Swapped(root, fault.value.step, fault.value.effect)
  }

  /** Only the calls themselves raise, and a call that raises had no effect. */
  predicate Synchronous(fault: Option<Fault>) {
    fault.Some? && fault.value.raises ==> !fault.value.effect
  }

  /** How many of the first `k` steps made the generation, wrote a file of it, replaced the link. */
  function Written(root: bool, k: nat): nat {
    var first := if root then 4 else 3;
    if k <= first then 0 else if k >= first + 3 then 3 else k - first
  }

  function ReplaceAt(root: bool): nat { if root then 8 else 7 }

  /** The state after `k` steps none of which was struck. */
  predicate Midway(before: Tree, now: Tree, c: Commit, root: bool, k: nat) {
    && OthersKept(before, now, c.name)
    && (if k <= 2 then c.name !in now.generations
        else c.name in now.generations && now.generations[c.name] == Staged(c.material, Written(root, k)))
    && now.current == if k <= ReplaceAt(root) then before.current else Some(Into(c.name))
  }

  lemma MidwayStep(before: Tree, now: Tree, c: Commit, root: bool, k: nat)
    requires Midway(before, now, c, root, k) && k < StepCount(root)
    ensures Midway(before, Do(StepAt(root, k), now, c), c, root, k + 1)
  {
    DoKeepsOthers(before, now, StepAt(root, k), c);
    match StepAt(root, k) {
      case WriteFile(file) =>
        assert Write(Staged(c.material, Written(root, k)), file, Content(c.material, file))
            == Staged(c.material, Written(root, k + 1));
      case _ =>
        assert k >= 2 ==> Written(root, k) == Written(root, k + 1);
    }
  }

  lemma DoKeepsOthers(before: Tree, now: Tree, step: Step, c: Commit)
    requires OthersKept(before, now, c.name)
    ensures OthersKept(before, Do(step, now, c), c.name)
  {
  }

  lemma MidwayStands(before: Tree, now: Tree, c: Commit, root: bool, k: nat)
    requires Midway(before, now, c, root, k)
    ensures OthersKept(before, now, c.name)
    ensures now.current == if k > ReplaceAt(root) then Some(Into(c.name)) else before.current
    ensures k > ReplaceAt(root) ==> Complete(now, c.name, c.material)
  {
  }

  lemma StruckStepStands(before: Tree, now: Tree, c: Commit, root: bool, k: nat, written: Option<nat>, effect: bool)
    requires c.name !in before.generations
    requires k < StepCount(root) && Midway(before, now, c, root, k)
    ensures var partly := Partly(StepAt(root, k), now, c, written, effect);
            && OthersKept(before, partly, c.name)
            && partly.current == (if Swapped(root, k, effect) then Some(Into(c.name)) else before.current)
            && (Swapped(root, k, effect) ==> Complete(partly, c.name, c.material))
  {
    var step := StepAt(root, k);
    if step.WriteFile? {
      DoKeepsOthers(before, now, step, c);
    } else if effect {
      MidwayStep(before, now, c, root, k);
      MidwayStands(before, Do(step, now, c), c, root, k + 1);
    } else {
      MidwayStands(before, now, c, root, k);
    }
  }

  lemma CleanedNothing(t: Tree, name: string)
    ensures Cleaned(t, name, 0) == t
  {
  }

  lemma EndingIsAtomicExactlyWhen(before: Tree, partly: Tree, c: Commit, swapped: bool, cleaned: nat)
    requires Resolves(before) && c.name !in before.generations && OthersKept(before, partly, c.name)
    requires partly.current == if swapped then Some(Into(c.name)) else before.current
    requires swapped ==> Complete(partly, c.name, c.material)
    ensures Cleaned(partly, c.name, 0) == partly
    ensures Atomic(before, Cleaned(partly, c.name, cleaned), c) <==> !(swapped && cleaned >= 1)
  {
    CleanedNothing(partly, c.name);
    var after := Cleaned(partly, c.name, cleaned);
    assert OthersKept(before, after, c.name) && after.current == partly.current;
    if swapped && cleaned >= 1 {
      assert c.name in after.generations ==> after.generations[c.name].cert.None?;
    }
  }

  lemma StruckIsAtomicExactlyWhen(before: Tree, now: Tree, c: Commit, root: bool, fault: Fault)
    requires Resolves(before) && c.name !in before.generations
    requires fault.step < StepCount(root) && Midway(before, now, c, root, fault.step)
    ensures Atomic(before, Struck(StepAt(root, fault.step), now, c, fault).0, c) <==>
            !CleanedAfterReplace(root, Some(fault))
  {
    var step, swapped := StepAt(root, fault.step), Swapped(root, fault.step, fault.effect);
    StruckStepStands(before, now, c, root, fault.step, fault.written, fault.effect);
    assert swapped ==> Handled(step);
    EndingIsAtomicExactlyWhen(before, Partly(step, now, c, fault.written, fault.effect), c, swapped,
                              if fault.raises && Handled(step) then fault.cleaned else 0);
  }

  lemma {:induction false} ExecuteIsAtomicExactlyWhen(before: Tree, now: Tree, c: Commit, root: bool,
                                                      fault: Option<Fault>, k: nat)
    requires Resolves(before) && c.name !in before.generations
    requires k <= StepCount(root) && Midway(before, now, c, root, k)
    requires fault.Some? ==> k <= fault.value.step
    ensures Atomic(before, Execute(now, c, root, fault, k).0, c) <==> !CleanedAfterReplace(root, fault)
    decreases StepCount(root) - k
  {
    if k < StepCount(root) {
      if fault.Some? && fault.value.step == k {
        StruckIsAtomicExactlyWhen(before, now, c, root, fault.value);
      } else {
        MidwayStep(before, now, c, root, k);
        ExecuteIsAtomicExactlyWhen(before, Do(StepAt(root, k), now, c), c, root, fault, k + 1);
      }
    }
  }

  /**
   For every place a commit can die or raise: it touches no other generation and
   leaves `current` old until it is new and complete, except exactly when an
   exception came after the swap and the handler cleaned up.
   */
  lemma CommitIsAtomicExactlyWhen(t: Tree, c: Commit, root: bool, fault: Option<Fault>)
    requires Resolves(t) && c.name !in t.generations
    ensures Atomic(t, CommitUnder(t, c, root, fault).0, c) <==> !CleanedAfterReplace(root, fault)
  {
    ExecuteIsAtomicExactlyWhen(t, t, c, root, fault, 0);
  }

  /** Where only calls raise, every commit that does not run as root is atomic, and only those are. */
  lemma AtomicForEveryFaultExactlyWhen(t: Tree, c: Commit, root: bool)
    requires Resolves(t) && c.name !in t.generations
    ensures (forall fault: Option<Fault> | Synchronous(fault) ::
               Atomic(t, CommitUnder(t, c, root, fault).0, c)) <==> !root
  {
    forall fault: Option<Fault>
      ensures Atomic(t, CommitUnder(t, c, root, fault).0, c) <==> !CleanedAfterReplace(root, fault)
    {
      CommitIsAtomicExactlyWhen(t, c, root, fault);
    }
    if root {
      var fault := Some(Fault(9, true, None, false, 4));
      assert Synchronous(fault) && CleanedAfterReplace(root, fault);
    }
  }

  /**
   A commit that raised before the swap, and whose clean-up went through, leaves
   every generation and `current` as they were: nothing of its own is left.
   */
  lemma FailedCommitLeavesNothing(t: Tree, c: Commit, root: bool, fault: Fault)
    requires c.name !in t.generations && fault.step < StepCount(root)
    requires fault.raises && Handled(StepAt(root, fault.step)) && !Swapped(root, fault.step, fault.effect)
    requires fault.cleaned >= 4
    ensures var after := CommitUnder(t, c, root, Some(fault)).0;
            after.generations == t.generations && after.current == t.current
  {
    var reached := UnstruckPrefix(t, t, c, root, Some(fault), 0, fault.step);
    StruckStepStands(t, reached, c, root, fault.step, fault.written, fault.effect);
    var partly := Partly(StepAt(root, fault.step), reached, c, fault.written, fault.effect);
    var after := Cleaned(partly, c.name, fault.cleaned);
    forall g ensures g in after.generations <==> g in t.generations {
    }
    assert after.generations == t.generations;
  }

  /** A name that is taken is refused before anything of it is touched, wherever the commit stops. */
  lemma TakenNameIsRefused(t: Tree, c: Commit, root: bool, fault: Option<Fault>)
    requires c.name in t.generations
    ensures var (after, outcome) := CommitUnder(t, c, root, fault);
            !outcome.Committed? && after.generations == t.generations && after.current == t.current
  {
    var second := Do(MakeLineage, t, c);
    var third := Do(MakeArchive, second, c);
    var at := if fault.Some? then fault.value.step else StepCount(root);
    assert StepAt(root, 0) == MakeLineage && StepAt(root, 1) == MakeArchive && StepAt(root, 2) == MakeGeneration;
    assert Execute(third, c, root, fault, 2) ==
           if at == 2 then Struck(MakeGeneration, third, c, fault.value) else (third, AlreadyExists);
    assert Execute(second, c, root, fault, 1) ==
           if at == 1 then Struck(MakeArchive, second, c, fault.value) else Execute(third, c, root, fault, 2);
    assert Execute(t, c, root, fault, 0) ==
           if at == 0 then Struck(MakeLineage, t, c, fault.value) else Execute(second, c, root, fault, 1);
  }

  /** What strikes a published commit: its owner cannot be changed, or an interrupt follows the swap. */
  function AfterTheSwap(root: bool): Fault {
    Fault(if root then 9 else 7, true, None, !root, 4)
  }

  /** The failing case: the link is published and the material it names is gone. */
  lemma CleanupCanRemoveThePublishedGeneration(t: Tree, c: Commit, root: bool, parses: Material -> bool)
    requires Resolves(t) && c.name !in t.generations
    ensures var (after, outcome) := CommitUnder(t, c, root, Some(AfterTheSwap(root)));
            after.current == Some(Into(c.name)) && c.name !in after.generations
            && Load(after, parses) == Err(NotADirectory)
  {
    var stop := AfterTheSwap(root).step;
    var reached := UnstruckPrefix(t, t, c, root, Some(AfterTheSwap(root)), 0, stop);
    assert StepAt(root, stop) == if root then OwnCurrent else ReplaceCurrent;
  }

  lemma {:induction false} UnstruckPrefix(before: Tree, now: Tree, c: Commit, root: bool, fault: Option<Fault>,
                                          k: nat, stop: nat)
    returns (reached: Tree)
    requires c.name !in before.generations && k <= stop <= StepCount(root)
    requires Midway(before, now, c, root, k)
    requires fault.Some? ==> stop <= fault.value.step
    ensures Midway(before, reached, c, root, stop)
    ensures Execute(now, c, root, fault, k) == Execute(reached, c, root, fault, stop)
    decreases stop - k
  {
    reached := now;
    if k < stop {
      MidwayStep(before, now, c, root, k);
      reached := UnstruckPrefix(before, Do(StepAt(root, k), now, c), c, root, fault, k + 1, stop);
    }
  }

  /** A commit nothing strikes publishes the new generation in full, whoever runs it. */
  lemma CommitPublishes(t: Tree, c: Commit, root: bool)
    requires c.name !in t.generations
    ensures var (after, outcome) := CommitUnder(t, c, root, None);
            && outcome == Committed && OthersKept(t, after, c.name)
            && after.current == Some(Into(c.name)) && Complete(after, c.name, c.material)
  {
    var after := UnstruckPrefix(t, t, c, root, None, 0, StepCount(root));
  }

  predicate WithinLimits(m: Material) {
    |m.leaf| <= 10_240 && |m.key| <= 5_120 && |m.chain| <= 51_200
  }

  /** Loading succeeds exactly when `current` names a complete generation in the lineage that fits and parses. */
  lemma LoadsExactlyWhen(t: Tree, parses: Material -> bool, m: Material)
    ensures Load(t, parses) == Ok(m) <==>
            && t.current.Some? && t.current.value.Into? && Complete(t, t.current.value.generation, m)
            && WithinLimits(m) && parses(m)
  {
  }

  /** What was committed reads back byte for byte, exactly when it fits the size limits and parses. */
  lemma CommitRoundTrips(t: Tree, c: Commit, root: bool, parses: Material -> bool)
    requires c.name !in t.generations
    ensures Load(CommitUnder(t, c, root, None).0, parses) == Ok(c.material) <==>
            WithinLimits(c.material) && parses(c.material)
  {
    CommitPublishes(t, c, root);
  }

  /** The validator's checks, a leaf and key within their limits and leaf plus chain within the bundle's, suffice. */
  lemma ValidatedMaterialFits(m: Material)
    requires |m.leaf| <= 10_240 && |m.key| <= 5_120 && |m.leaf| + |m.chain| <= 51_200
    ensures WithinLimits(m)
  {
  }

  // ----- the store itself -----

  /** No step before `k` was struck, so every fault from there on is still possible. */
  ghost predicate Reached(before: Tree, now: Tree, c: Commit, root: bool, k: nat) {
    forall fault: Option<Fault> :: (fault.Some? ==> k <= fault.value.step) ==>
      CommitUnder(before, c, root, fault) == Execute(now, c, root, fault, k)
  }

  lemma ReachedStep(before: Tree, now: Tree, c: Commit, root: bool, k: nat)
    requires Reached(before, now, c, root, k) && k < StepCount(root)
    requires StepAt(root, k).MakeGeneration? ==> c.name !in now.generations
    ensures Reached(before, Do(StepAt(root, k), now, c), c, root, k + 1)
  {
  }

  /** How a call stopped the commit: by an exception, or with the death of the process. */
  datatype Stopped = Stopped(step: nat, raises: bool, effect: bool)

  function FaultAt(stop: Stopped, written: Option<nat>, cleaned: nat): Fault {
    Fault(stop.step, stop.raises, written, stop.effect, cleaned)
  }

  /** What a fault at this point makes of the whole commit, however far its clean-up gets. */
  ghost predicate Explains(before: Tree, now: Tree, c: Commit, root: bool, stop: Stopped, written: Option<nat>) {
    forall cleaned: nat ::
      CommitUnder(before, c, root, Some(FaultAt(stop, written, cleaned))) ==
        if !stop.raises then (now, Died)
        else if Handled(StepAt(root, stop.step)) then (Cleaned(now, c.name, cleaned), Raised)
        else (now, Raised)
  }

  lemma StruckExplains(before: Tree, now: Tree, c: Commit, root: bool, stop: Stopped, written: Option<nat>)
    requires Reached(before, now, c, root, stop.step) && stop.step < StepCount(root)
    ensures Explains(before, Partly(StepAt(root, stop.step), now, c, written, stop.effect), c, root, stop, written)
  {
  }

  class NativeCertificateStore {
    var tree: Tree
    const root: bool

    /** Whether the file system lets every removal through. */
    const permits: bool

    constructor (tree: Tree, root: bool, permits: bool)
      ensures this.tree == tree && this.root == root && this.permits == permits
    {
      this.tree, this.root, this.permits := tree, root, permits;
    }

    /** Write a new file; the system may take any part of the content at a time. */
    method WriteNew(name: string, file: File, content: Bytes) returns (complete: bool, ghost written: Option<nat>)
      modifies this
      ensures complete ==> tree == Put(old(tree), name, file, content)
      ensures !complete && written.None? ==> tree == old(tree)
      ensures !complete && written.Some? ==>
                written.value <= |content| && tree == Put(old(tree), name, file, content[..written.value])
    {
      var refused: bool := *;
      if refused {
        return false, None;
      }
      var offset := 0;
      tree := Put(tree, name, file, []);
      while offset < |content|
        invariant 0 <= offset <= |content|
        invariant tree == Put(old(tree), name, file, content[..offset])
      {
        var struck: bool := *;
        if struck {
          return false, Some(offset);
        }
        var taken: nat :| 1 <= taken <= |content| - offset;
        offset := offset + taken;
        tree := Put(tree, name, file, content[..offset]);
      }
      assert content[..offset] == content;
      var struck: bool := *;
      return !struck, Some(offset);
    }

    /** One call of the commit: it takes its whole effect and returns, or stops the commit. */
    method Call(c: Commit, k: nat, ghost before: Tree) returns (stop: Option<Stopped>, ghost written: Option<nat>)
      requires k < StepCount(root) && Reached(before, tree, c, root, k)
      requires StepAt(root, k).MakeGeneration? ==> c.name !in tree.generations
      modifies this
      ensures stop.None? ==> Reached(before, tree, c, root, k + 1) && tree == Do(StepAt(root, k), old(tree), c)
      ensures stop.Some? ==> stop.value.step == k && Explains(before, tree, c, root, stop.value, written)
    {
      var step := StepAt(root, k);
      var struck: bool, raises: bool, effect: bool := *, *, *;
      written := None;
      ReachedStep(before, tree, c, root, k);
      if step.WriteFile? {
        var complete;
        complete, written := WriteNew(c.name, step.file, Content(c.material, step.file));
        struck := !complete;
      } else if !struck || effect {
        tree := Do(step, tree, c);
      }
      if struck {
        stop := Some(Stopped(k, raises, effect));
        StruckExplains(before, old(tree), c, root, stop.value, written);
      } else {
        stop := None;
      }
    }

    /** The three new files. */
    method WriteFiles(c: Commit, first: nat, ghost before: Tree)
      returns (stop: Option<Stopped>, ghost written: Option<nat>)
      requires first == (if root then 4 else 3) && Reached(before, tree, c, root, first)
      modifies this
      ensures stop.None? ==> Reached(before, tree, c, root, first + 3)
      ensures stop.Some? ==>
                && stop.value.step < StepCount(root) && Handled(StepAt(root, stop.value.step))
                && Explains(before, tree, c, root, stop.value, written)
    {
      stop, written := Call(c, first, before);
      if stop.Some? { return; }
      stop, written := Call(c, first + 1, before);
      if stop.Some? { return; }
      stop, written := Call(c, first + 2, before);
    }

    /** The new link, the swap, its owner. */
    method SwapLink(c: Commit, first: nat, ghost before: Tree)
      returns (stop: Option<Stopped>, ghost written: Option<nat>)
      requires first == (if root then 7 else 6) && Reached(before, tree, c, root, first)
      modifies this
      ensures stop.None? ==> Reached(before, tree, c, root, StepCount(root))
      ensures stop.Some? ==>
                && stop.value.step < StepCount(root) && Handled(StepAt(root, stop.value.step))
                && Explains(before, tree, c, root, stop.value, written)
    {
      stop, written := Call(c, first, before);
      if stop.Some? { return; }
      stop, written := Call(c, first + 1, before);
      if stop.Some? { return; }
      if root {
        stop, written := Call(c, first + 2, before);
      }
    }

    /** The calls the handler guards. */
    method Fill(c: Commit, first: nat, ghost before: Tree) returns (stop: Option<Stopped>, ghost written: Option<nat>)
      requires first == (if root then 4 else 3) && Reached(before, tree, c, root, first)
      modifies this
      ensures stop.None? ==> Reached(before, tree, c, root, StepCount(root))
      ensures stop.Some? ==>
                && stop.value.step < StepCount(root) && Handled(StepAt(root, stop.value.step))
                && Explains(before, tree, c, root, stop.value, written)
    {
      stop, written := WriteFiles(c, first, before);
      if stop.Some? { return; }
      stop, written := SwapLink(c, first + 3, before);
    }

    /** Remove what the failed commit wrote, as far as the system lets it. */
    method CleanUp(name: string) returns (cleaned: nat)
      modifies this
      ensures tree == Cleaned(old(tree), name, cleaned)
      ensures cleaned == 4 ==> name !in tree.generations
      ensures cleaned < 4 && name in old(tree).generations ==>
                && name in tree.generations
                && (cleaned >= 1 ==> tree.generations[name].cert.None?)
                && (cleaned >= 2 ==> tree.generations[name].chain.None?)
                && (cleaned >= 3 ==> tree.generations[name].key.None?)
      ensures cleaned <= 4 && (permits ==> cleaned == 4)
    {
      cleaned := 0;
      for i := 0 to 3
        invariant tree == Cleaned(old(tree), name, i)
      {
        var stuck: bool := *;
        if stuck && !permits {
          return i;
        }
        tree := Without(tree, name, if i == 0 then CERT else if i == 1 then CHAIN else PRIVKEY);
      }
      var kept: bool := *;
      if kept && !permits {
        return 3;
      }
      tree := tree.(generations := tree.generations - {name});
      return 4;
    }

    /** Write a complete generation, then swap `current` to it. */
    method CommitGeneration(c: Commit, parses: Material -> bool)
      returns (outcome: Outcome, loaded: Option<Result<Material, LoadError>>, ghost fault: Option<Fault>)
      modifies this
      ensures (tree, outcome) == CommitUnder(old(tree), c, root, fault)
      ensures outcome.Committed? ==> fault.None? && loaded == Some(Load(tree, parses))
      ensures c.name in old(tree).generations ==>
                !outcome.Committed? && tree.generations == old(tree).generations && tree.current == old(tree).current
      // where removals go through, a commit that raised before the swap left nothing behind
      ensures c.name !in old(tree).generations && permits && outcome.Raised? && fault.Some?
              && Handled(StepAt(root, fault.value.step)) && !Swapped(root, fault.value.step, fault.value.effect) ==>
                tree.generations == old(tree).generations && tree.current == old(tree).current
      ensures Resolves(old(tree)) && c.name !in old(tree).generations ==>
                (Atomic(old(tree), tree, c) <==> !CleanedAfterReplace(root, fault))
      ensures c.name !in old(tree).generations && outcome.Committed? ==>
                (loaded == Some(Ok(c.material)) <==> WithinLimits(c.material) && parses(c.material))
    {
      ghost var before := tree;
      loaded, fault := None, None;
      outcome, fault := TryCommit(c);
      if Resolves(before) && c.name !in before.generations {
        CommitIsAtomicExactlyWhen(before, c, root, fault);
      }
      if c.name in before.generations {
        TakenNameIsRefused(before, c, root, fault);
      }
      if c.name !in before.generations && outcome.Raised? && fault.value.cleaned >= 4
         && Handled(StepAt(root, fault.value.step)) && !Swapped(root, fault.value.step, fault.value.effect)
      {
        FailedCommitLeavesNothing(before, c, root, fault.value);
      }
      if outcome.Committed? {
        loaded := Some(Load(tree, parses));
        if c.name !in before.generations {
          CommitRoundTrips(before, c, root, parses);
        }
      }
    }

    method TryCommit(c: Commit) returns (outcome: Outcome, ghost fault: Option<Fault>)
      modifies this
      ensures (tree, outcome) == CommitUnder(old(tree), c, root, fault)
      ensures outcome.Committed? ==> fault.None?
      ensures outcome.Raised? ==>
                && fault.Some? && fault.value.raises && fault.value.step < StepCount(root)
                && (permits && Handled(StepAt(root, fault.value.step)) ==> fault.value.cleaned >= 4)
    {
      ghost var before := tree;
      fault := None;
      var stop, written := Call(c, 0, before);
      if stop.Some? {
        return Ended(stop.value), Some(FaultAt(stop.value, written, 0));
      }
      stop, written := Call(c, 1, before);
      if stop.Some? {
        return Ended(stop.value), Some(FaultAt(stop.value, written, 0));
      }
      if c.name in tree.generations {
        return AlreadyExists, None;
      }
      stop, written := Call(c, 2, before);
      if stop.Some? {
        return Ended(stop.value), Some(FaultAt(stop.value, written, 0));
      }
      if root {
        stop, written := Call(c, 3, before);
        if stop.Some? {
          return Ended(stop.value), Some(FaultAt(stop.value, written, 0));
        }
      }
      stop, written := Fill(c, if root then 4 else 3, before);
      if stop.None? {
        return Committed, None;
      }
      var cleaned := 0;
      if stop.value.raises {
        cleaned := CleanUp(c.name);
      }
      return Ended(stop.value), Some(FaultAt(stop.value, written, cleaned));
    }

    function Ended(stop: Stopped): Outcome {
      if stop.raises then Raised else Died
    }
  }
}