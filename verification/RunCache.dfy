/** The two-index store of completed runs: where a pointer lives, when it is served, when it is
    evicted. Paths are lists of directory names below the cache root. */
module RunCache {
  import opened Wrappers
  import opened Scenarios
  import SuiteStream

  // ----- keys -----

  datatype Staging = Symlink | Copy

  datatype Environment = Inherited | Scrubbed | Isolated

  datatype Permission = WorkspaceWrite | Unrestricted

  datatype Caps = Caps(toolCalls: Option<nat>, turns: Option<nat>)

  datatype KeyInput = KeyInput(
    caseId: string, skillHash: string, evalsHash: string, fixtureHash: string, mockHash: Option<string>,
    modelConfig: string, runnerModel: Option<string>, runnerKind: string, runnerVersion: Option<string>,
    scenario: ScenarioKind, attempt: nat, promptContract: string, environment: Environment, permission: Permission,
    toolGrant: Option<set<string>>, staging: Staging, scaffoldHash: Option<string>, companionHash: Option<string>,
    caps: Caps)

  datatype ReuseInput = ReuseInput(
    caseId: string, skillHash: string, evalsHash: string, fixtureHash: string, mockHash: Option<string>,
    scenario: ScenarioKind, attempt: nat, scaffoldHash: Option<string>, companionHash: Option<string>,
    toolGrant: Option<set<string>>, caps: Caps)

  function ReuseOf(k: KeyInput): ReuseInput {
    ReuseInput(k.caseId, k.skillHash, k.evalsHash, k.fixtureHash, k.mockHash, k.scenario, k.attempt,
               k.scaffoldHash, k.companionHash, k.toolGrant, k.caps)
  }

  predicate IsHexDigit(c: char) {
    '0' <= c <= '9' || 'a' <= c <= 'f'
  }

  /** A SHA-256 digest in hex. Nothing else is assumed of the digest function. */
  type Key = s: string | |s| == 64 && forall i :: 0 <= i < |s| ==> IsHexDigit(s[i])
    witness seq(64, _ => '0')

  type Digest = KeyInput -> Key

  // ----- slots -----

  type Path = seq<string>

  const REUSE := "reuse"

  predicate IsAsciiAlphanumeric(c: char) {
    'a' <= c <= 'z' || 'A' <= c <= 'Z' || '0' <= c <= '9'
  }

  predicate IsSafe(c: char) {
    IsAsciiAlphanumeric(c) || c == '-' || c == '_'
  }

  function Sanitized(value: string): (slug: string)
    ensures slug != [] && forall i :: 0 <= i < |slug| ==> IsSafe(slug[i])
  {
    if value == [] then "eval" else seq(|value|, i requires 0 <= i < |value| => if IsSafe(value[i]) then value[i] else '_')
  }

  method SanitizeDirName(value: string) returns (slug: string)
    ensures slug == Sanitized(value)
  {
    slug := "";
    for i := 0 to |value|
      invariant |slug| == i && forall k :: 0 <= k < i ==> slug[k] == if IsSafe(value[k]) then value[k] else '_'
    {
      slug := slug + [if IsSafe(value[i]) then value[i] else '_'];
    }
    if slug == [] { slug := "eval"; }
  }

  function ScenarioName(s: ScenarioKind): string {
    match s
    case WithSkill => "with_skill"
    case WithoutSkill => "without_skill"
    case OldSkill => "old_skill"
  }

  function Shown(n: nat): string {
    var digits := SuiteStream.Decimal(n);
    seq(|digits|, i requires 0 <= i < |digits| => digits[i] as char)
  }

  function ExactSlot(key: Key): Path {
    [key]
  }

  function ReuseSlot(r: ReuseInput): Path {
    [REUSE, Sanitized(r.caseId), ScenarioName(r.scenario), "attempt-" + Shown(r.attempt)]
  }

  predicate IsSlot(dir: Path) {
    (|dir| == 1 && dir[0] != REUSE) || (|dir| == 4 && dir[0] == REUSE)
  }

  lemma KeysAreSlots(key: Key)
    ensures IsSlot(ExactSlot(key))
  {}

  /** No slot contains or equals another one. */
  lemma SlotsNeverNest(a: Path, b: Path)
    requires IsSlot(a) && IsSlot(b) && a <= b
    ensures a == b
  {}

  lemma ShownApart(m: nat, n: nat)
    requires Shown(m) == Shown(n)
    ensures m == n
  {
    hide SuiteStream.Decimal;
    var a, b := SuiteStream.Decimal(m), SuiteStream.Decimal(n);
    assert |a| == |Shown(m)| == |b|;
    forall i | 0 <= i < |a| ensures a[i] == b[i] {
      assert Shown(m)[i] == a[i] as char && Shown(n)[i] == b[i] as char;
    }
    assert a == b;
    SuiteStream.DecimalRoundTrip(m);
    SuiteStream.DecimalRoundTrip(n);
  }

  lemma ScenarioNamesApart(s: ScenarioKind, t: ScenarioKind)
    requires ScenarioName(s) == ScenarioName(t)
    ensures s == t
  {}

  /** A character that a directory name does not tell apart from others of its kind. */
  predicate IsBlurred(c: char) {
    !('a' <= c <= 'z' || 'A' <= c <= 'Z' || '0' <= c <= '9' || c == '-')
  }

  /** Two names that get the same directory: they differ only where both hold an underscore or a
      character that is not safe. The empty name is the name `eval`. */
  predicate Collide(a: string, b: string) {
    if a == "" || b == "" then (a == "" || a == "eval") && (b == "" || b == "eval")
    else |a| == |b| && forall i :: 0 <= i < |a| ==> a[i] == b[i] || (IsBlurred(a[i]) && IsBlurred(b[i]))
  }

  lemma BlurredCharacters(c: char, d: char)
    ensures (if IsSafe(c) then c else '_') == (if IsSafe(d) then d else '_') <==> c == d || (IsBlurred(c) && IsBlurred(d))
    ensures (if IsSafe(c) then c else '_') == d ==> c == d || d == '_'
  {}

  /** Two names share a directory exactly when they collide. */
  lemma SameDirectoryIffCollide(a: string, b: string)
    ensures Sanitized(a) == Sanitized(b) <==> Collide(a, b)
  {
    if a == "" {
      if b != "" { OnlyEvalIsEval(b); }
    } else if b == "" {
      OnlyEvalIsEval(a);
    } else {
      var x, y := Sanitized(a), Sanitized(b);
      assert |x| == |a| && |y| == |b|;
      hide IsSafe, IsBlurred;
      forall i | 0 <= i < |a| && i < |b|
        ensures x[i] == y[i] <==> a[i] == b[i] || (IsBlurred(a[i]) && IsBlurred(b[i]))
      {
        BlurredCharacters(a[i], b[i]);
      }
      if x == y { assert forall i :: 0 <= i < |a| ==> x[i] == y[i]; }
    }
  }

  lemma OnlyEvalIsEval(value: string)
    requires value != ""
    ensures Sanitized(value) == "eval" <==> value == "eval"
  {
    var slug := Sanitized(value);
    if slug == "eval" {
      assert |value| == 4;
      assert slug[0] == 'e' && slug[1] == 'v' && slug[2] == 'a' && slug[3] == 'l';
      assert value[0] == 'e' && value[1] == 'v' && value[2] == 'a' && value[3] == 'l';
    }
  }

  /** Two runs share a reuse slot exactly when they are the same scenario and attempt of cases
      whose names collide. */
  lemma SharedReuseSlot(r: ReuseInput, s: ReuseInput)
    ensures ReuseSlot(r) == ReuseSlot(s) <==>
      Collide(r.caseId, s.caseId) && r.scenario == s.scenario && r.attempt == s.attempt
  {
    hide Sanitized, ScenarioName, Shown, Collide;
    SameDirectoryIffCollide(r.caseId, s.caseId);
    var a, b := ReuseSlot(r), ReuseSlot(s);
    if a == b {
      assert a[1] == b[1] && a[2] == b[2] && a[3] == b[3];
      ScenarioNamesApart(r.scenario, s.scenario);
      var p := "attempt-";
      assert a[3][|p|..] == Shown(r.attempt) && b[3][|p|..] == Shown(s.attempt);
      ShownApart(r.attempt, s.attempt);
    }
  }

  /** A name is its own directory name exactly when it is not empty and has only safe characters. */
  lemma SanitizedKeepsSafeNames(value: string)
    ensures Sanitized(value) == value <==> value != [] && forall i :: 0 <= i < |value| ==> IsSafe(value[i])
    ensures Sanitized(Sanitized(value)) == Sanitized(value)
  {}

  // ----- the store -----

  datatype Pointer = Pointer(reportDir: string, runId: string, input: KeyInput)

  /** What a slot's pointer file holds; `Unreadable` is a file that does not parse. */
  datatype Content = Parsed(pointer: Pointer) | Unreadable

  datatype Disk = Disk(slots: map<Path, Content>, reports: set<string>)

  const EMPTY := Disk(map[], {})

  function At(slots: map<Path, Content>, dir: Path): Option<Content> {
    if dir in slots then Some(slots[dir]) else None
  }

  function RemoveDirAll(slots: map<Path, Content>, dir: Path): map<Path, Content> {
    map d | d in slots && !(dir <= d) :: slots[d]
  }

  datatype Wanted = Exactly(input: KeyInput) | Reusing(reuse: ReuseInput)

  predicate Meets(p: Pointer, w: Wanted) {
    match w
    case Exactly(input) => p.input == input
    case Reusing(reuse) => ReuseOf(p.input) == reuse
  }

  /** What a lookup is served from a slot. */
  function Served(c: Option<Content>, reports: set<string>, w: Wanted): Option<Pointer> {
    if c.Some? && c.value.Parsed? && c.value.pointer.reportDir in reports && Meets(c.value.pointer, w)
    then Some(c.value.pointer) else None
  }

  /** Whether a lookup throws the slot away: it was read, but its report is gone or its key is
      another one. */
  predicate Evicts(c: Option<Content>, reports: set<string>, w: Wanted) {
    c.Some? && c.value.Parsed? && !(c.value.pointer.reportDir in reports && Meets(c.value.pointer, w))
  }

  function LookUp(d: Disk, dir: Path, w: Wanted): (Option<Pointer>, Disk) {
    (Served(At(d.slots, dir), d.reports, w),
     if Evicts(At(d.slots, dir), d.reports, w) then d.(slots := d.slots - {dir}) else d)
  }

  function Resolved(d: Disk, digest: Digest, o: Options, input: KeyInput, reuse: ReuseInput): (Option<Pointer>, Disk) {
    if !o.enabled then (None, d)
    else
      var (exact, d1) := LookUp(d, ExactSlot(digest(input)), Exactly(input));
      if exact.Some? || !o.reuseCompleted then (exact, d1) else LookUp(d1, ReuseSlot(reuse), Reusing(reuse))
  }

  function Recorded(d: Disk, digest: Digest, input: KeyInput, reportDir: string, runId: string): Disk {
    var p := Parsed(Pointer(reportDir, runId, input));
    d.(slots := d.slots[ExactSlot(digest(input)) := p][ReuseSlot(ReuseOf(input)) := p])
  }

  datatype Options = Options(enabled: bool, reuseCompleted: bool)

  ghost predicate OnlySlots(slots: map<Path, Content>) {
    forall d :: d in slots ==> IsSlot(d)
  }

  lemma RemovingASlot(slots: map<Path, Content>, dir: Path)
    requires OnlySlots(slots) && IsSlot(dir)
    ensures RemoveDirAll(slots, dir) == slots - {dir}
  {
    forall d | d in slots ensures dir <= d <==> d == dir {
      if dir <= d { SlotsNeverNest(dir, d); }
    }
  }

  class Store {
    const digest: Digest
    var slots: map<Path, Content>
    var reports: set<string>

    ghost predicate Valid()
      reads this
    {
      OnlySlots(slots)
    }

    ghost function OnDisk(): Disk
      reads this
    {
      Disk(slots, reports)
    }

    constructor (digest: Digest)
      ensures Valid() && OnDisk() == EMPTY && this.digest == digest
    {
      this.digest := digest;
      slots := map[];
      reports := {};
    }

    /** The pointer in a slot, if it can be read and its report is still there. */
    method ReadPointer(dir: Path) returns (r: Option<Pointer>)
      requires Valid() && IsSlot(dir)
      modifies this`slots
      ensures Valid()
      ensures
        var c := At(old(slots), dir);
        if c.Some? && c.value.Parsed? && c.value.pointer.reportDir in reports
        then r == Some(c.value.pointer) && slots == old(slots)
        else r == None && slots == if c.Some? && c.value.Parsed? then old(slots) - {dir} else old(slots)
    {
      RemovingASlot(slots, dir);
      if dir !in slots || slots[dir].Unreadable? { return None; }
      var pointer := slots[dir].pointer;
      if pointer.reportDir !in reports {
        slots := RemoveDirAll(slots, dir);
        return None;
      }
      return Some(pointer);
    }

    method LookupExact(key: Key, current: KeyInput) returns (r: Option<Pointer>)
      requires Valid()
      modifies this`slots
      ensures Valid()
      ensures (r, OnDisk()) == LookUp(old(OnDisk()), ExactSlot(key), Exactly(current))
    {
      KeysAreSlots(key);
      RemovingASlot(slots, ExactSlot(key));
      var pointer := ReadPointer(ExactSlot(key));
      if pointer.None? || pointer.value.input == current { return pointer; }
      slots := RemoveDirAll(slots, ExactSlot(key));
      return None;
    }

    method LookupReuse(current: ReuseInput) returns (r: Option<Pointer>)
      requires Valid()
      modifies this`slots
      ensures Valid()
      ensures (r, OnDisk()) == LookUp(old(OnDisk()), ReuseSlot(current), Reusing(current))
    {
      RemovingASlot(slots, ReuseSlot(current));
      var pointer := ReadPointer(ReuseSlot(current));
      if pointer.None? || ReuseOf(pointer.value.input) == current { return pointer; }
      slots := RemoveDirAll(slots, ReuseSlot(current));
      return None;
    }

    method TryResolve(options: Options, input: KeyInput, reuse: ReuseInput) returns (r: Option<Pointer>)
      requires Valid()
      modifies this`slots
      ensures Valid()
      ensures (r, OnDisk()) == Resolved(old(OnDisk()), digest, options, input, reuse)
    {
      if !options.enabled { return None; }
      var exact := LookupExact(digest(input), input);
      if exact.Some? { return exact; }
      if options.reuseCompleted {
        r := LookupReuse(reuse);
        return;
      }
      return None;
    }

    method RecordCompletion(input: KeyInput, reportDir: string, runId: string)
      requires Valid()
      modifies this`slots
      ensures Valid()
      ensures OnDisk() == Recorded(old(OnDisk()), digest, input, reportDir, runId)
    {
      KeysAreSlots(digest(input));
      var pointer := Parsed(Pointer(reportDir, runId, input));
      slots := slots[ExactSlot(digest(input)) := pointer];
      slots := slots[ReuseSlot(ReuseOf(input)) := pointer];
    }
  }

  // ----- runs of the store -----

  /** What can happen to the store, by its own operations and from outside: reports come and go,
      a pointer file is damaged, a directory of the cache is deleted. */
  datatype Event =
    | Record(input: KeyInput, reportDir: string, runId: string)
    | Resolve(options: Options, want: KeyInput, reuse: ReuseInput)
    | ReportWritten(dir: string)
    | ReportGone(dir: string)
    | Damaged(slot: Path)
    | Deleted(tree: Path)

  function Step(d: Disk, digest: Digest, e: Event): Disk {
    match e
    case Record(input, reportDir, runId) => Recorded(d, digest, input, reportDir, runId)
    case Resolve(options, want, reuse) => Resolved(d, digest, options, want, reuse).1
    case ReportWritten(dir) => d.(reports := d.reports + {dir})
    case ReportGone(dir) => d.(reports := d.reports - {dir})
    case Damaged(slot) => if slot in d.slots then d.(slots := d.slots[slot := Unreadable]) else d
    case Deleted(tree) => d.(slots := RemoveDirAll(d.slots, tree))
  }

  function Run(d: Disk, digest: Digest, es: seq<Event>): Disk {
    if es == [] then d else Step(Run(d, digest, es[..|es| - 1]), digest, es[|es| - 1])
  }

  // ----- what is served was recorded -----

  ghost predicate WasRecorded(es: seq<Event>, p: Pointer) {
    Record(p.input, p.reportDir, p.runId) in es
  }

  ghost predicate AllRecorded(slots: map<Path, Content>, es: seq<Event>) {
    forall d :: d in slots && slots[d].Parsed? ==> WasRecorded(es, slots[d].pointer)
  }

  lemma {:induction false} EveryPointerWasRecorded(digest: Digest, es: seq<Event>)
    ensures AllRecorded(Run(EMPTY, digest, es).slots, es)
  {
    if es == [] {
    } else {
      var init, e := es[..|es| - 1], es[|es| - 1];
      EveryPointerWasRecorded(digest, init);
      assert forall x :: x in init ==> x in es;
      assert e in es;
    }
  }

  /** Whatever a lookup is served after any run was recorded in it: under exactly the key input
      asked for, or, when completed runs may be reused, under one that projects to the reuse key
      asked for. Nothing is assumed of the digest or of sanitized names. */
  lemma HitsWereRecorded(digest: Digest, es: seq<Event>, o: Options, input: KeyInput, reuse: ReuseInput)
    ensures
      var d := Run(EMPTY, digest, es);
      var hit := Resolved(d, digest, o, input, reuse).0;
      hit.Some? ==>
        && WasRecorded(es, hit.value)
        && hit.value.reportDir in d.reports
        && o.enabled
        && (hit.value.input == input || (o.reuseCompleted && ReuseOf(hit.value.input) == reuse))
  {
    hide Run;
    EveryPointerWasRecorded(digest, es);
  }

  // ----- slots do not disturb one another -----

  /** Whether an event looks at, writes or damages a slot. */
  predicate Touches(digest: Digest, e: Event, slot: Path) {
    match e
    case Record(input, _, _) => slot == ExactSlot(digest(input)) || slot == ReuseSlot(ReuseOf(input))
    case Resolve(o, want, reuse) =>
      o.enabled && (slot == ExactSlot(digest(want)) || (o.reuseCompleted && slot == ReuseSlot(reuse)))
    case Damaged(s) => s == slot
    case Deleted(tree) => tree <= slot
    case _ => false
  }

  lemma {:induction false} UntouchedSlotsStay(d: Disk, digest: Digest, es: seq<Event>, slot: Path)
    requires forall e :: e in es ==> !Touches(digest, e, slot)
    ensures At(Run(d, digest, es).slots, slot) == At(d.slots, slot)
  {
    if es == [] {
    } else {
      var init, e := es[..|es| - 1], es[|es| - 1];
      assert forall x :: x in init ==> x in es;
      assert e in es;
      UntouchedSlotsStay(d, digest, init, slot);
    }
  }

  // ----- how long a pointer is served -----

  predicate Holds(d: Disk, slot: Path, p: Pointer) {
    At(d.slots, slot) == Some(Parsed(p)) && p.reportDir in d.reports
  }

  /** What an event asks of a slot, if it looks it up on this disk. */
  function Asks(d: Disk, digest: Digest, e: Event, slot: Path): set<Wanted> {
    if !e.Resolve? || !e.options.enabled then {}
    else
      (if slot == ExactSlot(digest(e.want)) then {Exactly(e.want)} else {})
      + (if slot == ReuseSlot(e.reuse) && e.options.reuseCompleted
            && LookUp(d, ExactSlot(digest(e.want)), Exactly(e.want)).0.None?
         then {Reusing(e.reuse)} else {})
  }

  /** The events that end the serving of a pointer from its slot. */
  predicate Ends(d: Disk, digest: Digest, e: Event, slot: Path, p: Pointer) {
    match e
    case Record(input, reportDir, runId) => Touches(digest, e, slot) && p != Pointer(reportDir, runId, input)
    case Resolve(_, _, _) => exists w :: w in Asks(d, digest, e, slot) && !Meets(p, w)
    case ReportWritten(_) => false
    case ReportGone(dir) => dir == p.reportDir
    case Damaged(s) => s == slot
    case Deleted(tree) => tree <= slot
  }

  lemma ExactIsNotReuse(key: Key, r: ReuseInput)
    ensures ExactSlot(key) != ReuseSlot(r)
  {}

  /** A pointer that is being served goes on being served exactly until an event ends it. */
  lemma ServedUntilEnded(d: Disk, digest: Digest, e: Event, slot: Path, p: Pointer)
    requires Holds(d, slot, p)
    ensures Holds(Step(d, digest, e), slot, p) <==> !Ends(d, digest, e, slot, p)
  {
    if e.Resolve? {
      ExactIsNotReuse(digest(e.want), e.reuse);
    }
  }

  ghost predicate NeverEnded(d: Disk, digest: Digest, es: seq<Event>, slot: Path, p: Pointer) {
    forall k :: 0 <= k < |es| ==> !Ends(Run(d, digest, es[..k]), digest, es[k], slot, p)
  }

  lemma {:induction false} HoldsAfterARun(d: Disk, digest: Digest, es: seq<Event>, slot: Path, p: Pointer)
    requires Holds(d, slot, p) && NeverEnded(d, digest, es, slot, p)
    ensures Holds(Run(d, digest, es), slot, p)
  {
    hide Ends, Step, Holds;
    if es == [] {
    } else {
      var n := |es| - 1;
      var init := es[..n];
      forall k | 0 <= k < n ensures !Ends(Run(d, digest, init[..k]), digest, init[k], slot, p) {
        assert init[..k] == es[..k] && init[k] == es[k];
      }
      HoldsAfterARun(d, digest, init, slot, p);
      ServedUntilEnded(Run(d, digest, init), digest, es[n], slot, p);
    }
  }

  /** The last recorded pointer is served to both kinds of lookup as long as nothing ends it. */
  lemma LastRecordedIsServed(d: Disk, digest: Digest, p: Pointer, es: seq<Event>, o: Options)
    requires p.reportDir in d.reports && o.enabled
    ensures
      var start := Recorded(d, digest, p.input, p.reportDir, p.runId);
      var exact, reuse := ExactSlot(digest(p.input)), ReuseSlot(ReuseOf(p.input));
      && (NeverEnded(start, digest, es, exact, p) ==>
            Resolved(Run(start, digest, es), digest, o, p.input, ReuseOf(p.input)).0 == Some(p))
      && (NeverEnded(start, digest, es, reuse, p) ==>
            LookUp(Run(start, digest, es), reuse, Reusing(ReuseOf(p.input))).0 == Some(p))
  {
    hide Run, NeverEnded;
    var start := Recorded(d, digest, p.input, p.reportDir, p.runId);
    var exact, reuse := ExactSlot(digest(p.input)), ReuseSlot(ReuseOf(p.input));
    ExactIsNotReuse(digest(p.input), ReuseOf(p.input));
    assert Holds(start, exact, p) && Holds(start, reuse, p);
    if NeverEnded(start, digest, es, exact, p) { HoldsAfterARun(start, digest, es, exact, p); }
    if NeverEnded(start, digest, es, reuse, p) { HoldsAfterARun(start, digest, es, reuse, p); }
  }

  // ----- when slot names do not collide -----

  /** The key input an event names. */
  function Named(e: Event): set<KeyInput> {
    match e
    case Record(input, _, _) => {input}
    case Resolve(_, want, _) => {want}
    case _ => {}
  }

  /** Without a collision of digests, an exact entry ends only by a newer recording of the same
      input, the loss of its report, or from outside. */
  lemma ExactEndsWithoutCollisions(d: Disk, digest: Digest, e: Event, p: Pointer)
    requires forall k :: k in Named(e) && digest(k) == digest(p.input) ==> k == p.input
    ensures Ends(d, digest, e, ExactSlot(digest(p.input)), p) <==>
      match e
      case Record(input, reportDir, runId) => input == p.input && (reportDir, runId) != (p.reportDir, p.runId)
      case ReportGone(dir) => dir == p.reportDir
      case Damaged(s) => s == [digest(p.input)]
      case Deleted(tree) => tree == [] || tree == [digest(p.input)]
      case _ => false
  {}

  /** A reuse entry also ends when its slot is asked for under another reuse key: the same case,
      scenario and attempt after its skill, suite, fixtures or grant have changed. */
  lemma ReuseEndsWhenAskedAnew(d: Disk, digest: Digest, o: Options, want: KeyInput, reuse: ReuseInput, p: Pointer)
    requires o.enabled && o.reuseCompleted && LookUp(d, ExactSlot(digest(want)), Exactly(want)).0.None?
    ensures Ends(d, digest, Resolve(o, want, reuse), ReuseSlot(ReuseOf(p.input)), p) <==>
      && Collide(reuse.caseId, p.input.caseId) && reuse.scenario == p.input.scenario
      && reuse.attempt == p.input.attempt && reuse != ReuseOf(p.input)
  {
    hide LookUp, Collide, ReuseSlot;
    var slot, e := ReuseSlot(ReuseOf(p.input)), Resolve(o, want, reuse);
    SharedReuseSlot(reuse, ReuseOf(p.input));
    ExactIsNotReuse(digest(want), ReuseOf(p.input));
    assert Asks(d, digest, e, slot) == if slot == ReuseSlot(reuse) then {Reusing(reuse)} else {};
  }

  /** The event is a recording or a lookup for a case whose name does not collide with that of the
      run, or the report of some other run coming or going. */
  predicate OfAnotherCase(e: Event, p: Pointer) {
    match e
    case Record(input, _, _) => !Collide(input.caseId, p.input.caseId)
    case Resolve(_, _, reuse) => !Collide(reuse.caseId, p.input.caseId)
    case ReportWritten(_) => true
    case ReportGone(dir) => dir != p.reportDir
    case _ => false
  }

  lemma OtherCasesDoNotEnd(d: Disk, digest: Digest, e: Event, p: Pointer)
    requires OfAnotherCase(e, p)
    ensures !Ends(d, digest, e, ReuseSlot(ReuseOf(p.input)), p)
  {
    hide ReuseSlot, ExactSlot, LookUp, Collide;
    match e
    case Record(input, _, _) =>
      SharedReuseSlot(ReuseOf(input), ReuseOf(p.input));
      ExactIsNotReuse(digest(input), ReuseOf(p.input));
    case Resolve(_, want, reuse) =>
      SharedReuseSlot(reuse, ReuseOf(p.input));
      ExactIsNotReuse(digest(want), ReuseOf(p.input));
    case _ =>
  }

  /** However many runs of other cases are recorded and looked up, a completed run stays in its reuse
      slot as long as none of their names collides with its own, whatever the digests are. */
  lemma OtherCasesNeverEvict(d: Disk, digest: Digest, es: seq<Event>, p: Pointer)
    requires p.reportDir in d.reports && forall e :: e in es ==> OfAnotherCase(e, p)
    ensures
      var start := Recorded(d, digest, p.input, p.reportDir, p.runId);
      LookUp(Run(start, digest, es), ReuseSlot(ReuseOf(p.input)), Reusing(ReuseOf(p.input))).0 == Some(p)
  {
    hide Run, ReuseSlot, Ends, LookUp, Recorded, OfAnotherCase;
    var start := Recorded(d, digest, p.input, p.reportDir, p.runId);
    forall k | 0 <= k < |es| ensures !Ends(Run(start, digest, es[..k]), digest, es[k], ReuseSlot(ReuseOf(p.input)), p) {
      OtherCasesDoNotEnd(Run(start, digest, es[..k]), digest, es[k], p);
    }
    LastRecordedIsServed(d, digest, p, es, Options(true, true));
  }

  /** Slots are named by the case, the scenario and the attempt in words. */
  lemma SlotOfAnExample(r: ReuseInput)
    requires r.caseId == "a.b-c" && r.attempt == 12
    ensures
      var scenario := match r.scenario
                      case WithSkill => "with_skill"
                      case WithoutSkill => "without_skill"
                      case OldSkill => "old_skill";
      ReuseSlot(r) == ["reuse", "a_b-c", scenario, "attempt-12"]
  {
    ShownTwelve();
    assert Sanitized("a.b-c") == "a_b-c";
  }

  lemma ShownTwelve()
    ensures "attempt-" + Shown(12) == "attempt-12"
  {
    assert SuiteStream.Decimal(1) == [49];
    assert SuiteStream.Decimal(12) == [49, 50];
    assert Shown(12) == ['1', '2'];
  }

  // ----- what reuse forgets -----

  /** Two runs have the same reuse key exactly when they differ at most in the model config, the
      runner and its version, the prompt contract, the environment, the permission and the staging. */
  lemma ReuseForgetsExactly(k: KeyInput, l: KeyInput)
    ensures ReuseOf(k) == ReuseOf(l) <==>
      l == k.(modelConfig := l.modelConfig, runnerModel := l.runnerModel, runnerKind := l.runnerKind,
              runnerVersion := l.runnerVersion, promptContract := l.promptContract, environment := l.environment,
              permission := l.permission, staging := l.staging)
  {}

  /** On any disk, a run that has just been recorded is served to every request with its reuse key,
      unless the exact index has a run under the very input of the request. */
  lemma ReuseServesTheLatest(d: Disk, digest: Digest, p: Pointer, want: KeyInput)
    requires p.reportDir in d.reports && ReuseOf(want) == ReuseOf(p.input)
    ensures
      var hit := Resolved(Recorded(d, digest, p.input, p.reportDir, p.runId), digest, Options(true, true), want, ReuseOf(want)).0;
      hit.Some? && (hit.value == p || hit.value.input == want)
  {
    hide ReuseOf, ReuseSlot;
    ExactIsNotReuse(digest(want), ReuseOf(p.input));
    ExactIsNotReuse(digest(p.input), ReuseOf(p.input));
  }

  /** Its report written, one run is recorded. */
  function OneRecorded(k: KeyInput, reportDir: string, runId: string): seq<Event> {
    [ReportWritten(reportDir), Record(k, reportDir, runId)]
  }

  lemma OneRecordedRuns(digest: Digest, k: KeyInput, reportDir: string, runId: string)
    ensures Run(EMPTY, digest, OneRecorded(k, reportDir, runId)) ==
      Recorded(Disk(map[], {reportDir}), digest, k, reportDir, runId)
  {
    hide Recorded;
    var es := OneRecorded(k, reportDir, runId);
    assert es[..1] == [ReportWritten(reportDir)] && es[..1][..0] == [];
    assert Run(EMPTY, digest, es[..1]) == Disk(map[], {reportDir});
  }

  /** After that, a request that may reuse completed runs is served that run exactly when it agrees
      with it in everything but the eight fields reuse forgets, whatever the digest of either. */
  lemma ServedAcrossIff(digest: Digest, k: KeyInput, reportDir: string, runId: string, want: KeyInput)
    ensures
      var d := Run(EMPTY, digest, OneRecorded(k, reportDir, runId));
      var hit := Resolved(d, digest, Options(true, true), want, ReuseOf(want)).0;
      && (hit.Some? ==> hit == Some(Pointer(reportDir, runId, k)))
      && (hit.Some? <==>
            want == k.(modelConfig := want.modelConfig, runnerModel := want.runnerModel, runnerKind := want.runnerKind,
                       runnerVersion := want.runnerVersion, promptContract := want.promptContract,
                       environment := want.environment, permission := want.permission, staging := want.staging))
  {
    OneRecordedRuns(digest, k, reportDir, runId);
    ReuseForgetsExactly(want, k);
    hide ReuseOf, ReuseSlot, Run;
    ExactIsNotReuse(digest(want), ReuseOf(k));
    ExactIsNotReuse(digest(want), ReuseOf(want));
    ExactIsNotReuse(digest(k), ReuseOf(want));
  }

  /** Whatever has happened to the store, a hit ran under the environment, the permission and the
      staging that are asked for. */
  ghost predicate PoliciesHold(digest: Digest, o: Options) {
    forall es, want: KeyInput ::
      var hit := Resolved(Run(EMPTY, digest, es), digest, o, want, ReuseOf(want)).0;
      hit.Some? ==>
        && hit.value.input.environment == want.environment
        && hit.value.input.permission == want.permission
        && hit.value.input.staging == want.staging
  }

  /** A run made with the narrowest permission and the operator's environment is served to a request
      for the widest permission in an isolated environment. */
  lemma ServedUnderAnotherPolicy(digest: Digest, k: KeyInput, want: KeyInput, reportDir: string, runId: string)
    requires k.environment == Inherited && k.permission == WorkspaceWrite
    requires want == k.(environment := Isolated, permission := Unrestricted)
    ensures
      var d := Run(EMPTY, digest, OneRecorded(k, reportDir, runId));
      var hit := Resolved(d, digest, Options(true, true), want, ReuseOf(want)).0;
      && hit == Some(Pointer(reportDir, runId, k))
      && hit.value.input.environment != want.environment && hit.value.input.permission != want.permission
  {
    hide Run, Resolved;
    ServedAcrossIff(digest, k, reportDir, runId, want);
  }

  /** Hits answer for the policies of the request exactly when completed runs may not be reused. */
  lemma PoliciesHoldIffNoReuse(digest: Digest, o: Options)
    ensures PoliciesHold(digest, o) <==> !(o.enabled && o.reuseCompleted)
  {
    hide Run, Resolved, ReuseOf;
    if o.enabled && o.reuseCompleted {
      var k := KeyInput("", "", "", "", None, "", None, "", None, WithSkill, 1, "", Inherited, WorkspaceWrite, None,
                        Copy, None, None, Caps(None, None));
      var want := k.(environment := Isolated, permission := Unrestricted);
      ServedUnderAnotherPolicy(digest, k, want, "", "");
      assert o == Options(true, true);
    } else {
      forall es, want: KeyInput | Resolved(Run(EMPTY, digest, es), digest, o, want, ReuseOf(want)).0.Some?
        ensures Resolved(Run(EMPTY, digest, es), digest, o, want, ReuseOf(want)).0.value.input == want
      {
        HitsWereRecorded(digest, es, o, want, ReuseOf(want));
      }
    }
  }
}
