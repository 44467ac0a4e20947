/** Pruning of unused OpenAPI components from the document shown to a reader who may see only some paths.

  Objects are node ids in a finite heap.  `Marker.Run` is the worklist; its contract says that it finds
  exactly the least set of nodes closed under children and references.  `Document.Prune` deletes; the
  lemmas say that on a tree, as JSON parsing yields, everything the kept part refers to still resolves. */
module DocsPrune {
  import opened Seqs
  import Decimal

  /** `Plain` stands for null, booleans and numbers. */
  datatype Value = Plain | Text(text: string) | Ref(node: nat)
  type Entries = seq<(string, Value)>
  datatype Node = Node(isArray: bool, entries: Entries)
  type Heap = map<nat, Node>
  type Component = (string, string)

  // ----- own properties -----

  function Find(entries: Entries, key: string): (r: Option<Value>)
    ensures r.Some? ==> exists i :: 0 <= i < |entries| && entries[i] == (key, r.value)
  {
    if entries == [] then None
    else if entries[0].0 == key then Some(entries[0].1)
    else Find(entries[1..], key)
  }

  function Keys(entries: Entries): set<string> {
    set i | 0 <= i < |entries| :: entries[i].0
  }

  function Drop(entries: Entries, keys: set<string>): Entries {
    if entries == [] then []
    else (if entries[0].0 in keys then [] else [entries[0]]) + Drop(entries[1..], keys)
  }

  lemma {:induction false} FindDropped(entries: Entries, keys: set<string>, key: string)
    ensures Find(Drop(entries, keys), key) == if key in keys then None else Find(entries, key)
  {
    if entries != [] {
      FindDropped(entries[1..], keys, key);
      if entries[0].0 !in keys {
        assert Drop(entries, keys)[1..] == Drop(entries[1..], keys);
      } else {
        assert Drop(entries, keys) == Drop(entries[1..], keys);
      }
    }
  }

  lemma {:induction false} FindKey(entries: Entries, key: string)
    ensures key in Keys(entries) <==> Find(entries, key).Some?
  {
    if entries != [] {
      FindKey(entries[1..], key);
      assert forall i :: 1 <= i < |entries| ==> entries[i] == entries[1..][i - 1];
      assert key in Keys(entries) <==> key == entries[0].0 || key in Keys(entries[1..]);
    }
  }

  lemma {:induction false} DropTwice(entries: Entries, a: set<string>, b: set<string>)
    ensures Drop(Drop(entries, a), b) == Drop(entries, a + b)
  {
    if entries != [] {
      DropTwice(entries[1..], a, b);
      if entries[0].0 in a {
        assert Drop(entries, a) == Drop(entries[1..], a);
      } else {
        assert Drop(entries, a)[1..] == Drop(entries[1..], a);
      }
    }
  }

  lemma {:induction false} DropNothing(entries: Entries, keys: set<string>)
    requires Keys(entries) !! keys
    ensures Drop(entries, keys) == entries
  {
    if entries != [] {
      assert entries[0].0 in Keys(entries);
      forall key | key in Keys(entries[1..]) ensures key in Keys(entries) {
        var i :| 0 <= i < |entries[1..]| && entries[1..][i].0 == key;
        assert entries[i + 1].0 == key;
      }
      DropNothing(entries[1..], keys);
    }
  }

  predicate IsObject(h: Heap, v: Option<Value>) {
    v.Some? && v.value.Ref? && v.value.node in h
  }

  predicate IsRecord(h: Heap, v: Option<Value>) {
    IsObject(h, v) && !h[v.value.node].isArray
  }

  /** `Object.hasOwn` and the access that follows it, on an object; arrays also own their length. */
  function Own(node: Node, key: string): Option<Value> {
    var found := Find(node.entries, key);
    if found == None && node.isArray && key == "length" then Some(Plain) else found
  }

  // ----- JSON Pointers (RFC 6901) -----

  function ReplaceTilde(s: string, code: char, meant: char): string {
    if s == [] then []
    else if |s| >= 2 && s[0] == '~' && s[1] == code then [meant] + ReplaceTilde(s[2..], code, meant)
    else [s[0]] + ReplaceTilde(s[1..], code, meant)
  }

  function Unescape(part: string): string {
    ReplaceTilde(ReplaceTilde(part, '1', '/'), '0', '~')
  }

  function UnescapeAll(parts: seq<string>): (r: seq<string>)
    ensures |r| == |parts|
  {
    if parts == [] then [] else [Unescape(parts[0])] + UnescapeAll(parts[1..])
  }

  function Tail(s: string): string {
    if s == [] then [] else s[1..]
  }

  /** The reference tokens of a local reference; `decode` stands for percent-decoding, which may fail. */
  function PartsOf(reference: string, decode: string -> Option<string>): (r: Option<seq<string>>)
    ensures r.Some? ==> |r.value| >= 1
  {
    if |reference| < 2 || reference[..2] != "#/" then None
    else
      var decoded := decode(reference[1..]);
      if decoded == None then None else Some(UnescapeAll(Split(Tail(decoded.value), '/')))
  }

  /** The escaping of section 4 of RFC 6901. */
  function Escape(part: string): string {
    if part == [] then []
    else (if part[0] == '~' then "~0" else if part[0] == '/' then "~1" else [part[0]]) + Escape(part[1..])
  }

  function EscapeAll(parts: seq<string>): (r: seq<string>)
    ensures |r| == |parts|
  {
    if parts == [] then [] else [Escape(parts[0])] + EscapeAll(parts[1..])
  }

  /** A single pass that undoes `Escape` up to its tildes. */
  function TildesOnly(part: string): string {
    if part == [] then []
    else (if part[0] == '~' then "~0" else [part[0]]) + TildesOnly(part[1..])
  }

  lemma ReplaceSteps(c: char, rest: string, code: char, meant: char)
    ensures c != '~' ==> ReplaceTilde([c] + rest, code, meant) == [c] + ReplaceTilde(rest, code, meant)
    ensures ReplaceTilde(['~', code] + rest, code, meant) == [meant] + ReplaceTilde(rest, code, meant)
  {
    assert ([c] + rest)[1..] == rest;
    assert (['~', code] + rest)[2..] == rest;
  }

  /** A tilde before any other character than the code stays. */
  lemma ReplaceOther(c: char, rest: string, code: char, meant: char)
    requires c != code && c != '~'
    ensures ReplaceTilde(['~', c] + rest, code, meant) == ['~', c] + ReplaceTilde(rest, code, meant)
  {
    var s := ['~', c] + rest;
    assert s[1..] == [c] + rest;
    ReplaceSteps(c, rest, code, meant);
    assert ['~'] + ([c] + ReplaceTilde(rest, code, meant)) == ['~', c] + ReplaceTilde(rest, code, meant);
  }

  lemma {:induction false} FirstPass(part: string)
    ensures ReplaceTilde(Escape(part), '1', '/') == TildesOnly(part)
    ensures '/' !in Escape(part)
  {
    if part != [] {
      var rest := part[1..];
      FirstPass(rest);
      if part[0] == '~' {
        ReplaceOther('0', Escape(rest), '1', '/');
      } else {
        ReplaceSteps(part[0], Escape(rest), '1', '/');
      }
    }
  }

  lemma {:induction false} SecondPass(part: string)
    ensures ReplaceTilde(TildesOnly(part), '0', '~') == part
  {
    if part != [] {
      SecondPass(part[1..]);
      ReplaceSteps(part[0], TildesOnly(part[1..]), '0', '~');
      assert part == [part[0]] + part[1..];
    }
  }

  lemma {:induction false} UnescapeEscapeAll(parts: seq<string>)
    ensures UnescapeAll(EscapeAll(parts)) == parts
    ensures forall p :: p in EscapeAll(parts) ==> '/' !in p
  {
    if parts != [] {
      FirstPass(parts[0]);
      SecondPass(parts[0]);
      UnescapeEscapeAll(parts[1..]);
      assert EscapeAll(parts)[1..] == EscapeAll(parts[1..]);
    }
  }

  function PointerTo(parts: seq<string>): string {
    "#/" + Join(EscapeAll(parts), '/')
  }

  /** The pointer written for a path is read back as that path, whatever characters its names hold. */
  lemma {:induction false} PointerRoundTrip(parts: seq<string>, decode: string -> Option<string>)
    requires parts != [] && decode(PointerTo(parts)[1..]) == Some(PointerTo(parts)[1..])
    ensures PartsOf(PointerTo(parts), decode) == Some(parts)
  {
    UnescapeEscapeAll(parts);
    SplitJoin(EscapeAll(parts), '/');
    assert PointerTo(parts)[..2] == "#/";
    assert Tail(PointerTo(parts)[1..]) == Join(EscapeAll(parts), '/');
  }

  // ----- what visiting a node does -----

  /** The work a node gives: a reference to follow, a security scheme to keep, or a child to visit. */
  datatype Step = Follow(value: Option<Value>, byName: bool) | Secure(name: string) | Visit(child: Value)

  datatype Effect = Effect(keeps: Option<Component>, pushes: Option<Value>, bad: bool)

  const NO_EFFECT := Effect(None, None, false)

  function VisitAll(entries: Entries): seq<Step> {
    if entries == [] then [] else [Visit(entries[0].1)] + VisitAll(entries[1..])
  }

  function FollowAll(entries: Entries): seq<Step> {
    if entries == [] then [] else [Follow(Some(entries[0].1), true)] + FollowAll(entries[1..])
  }

  function SecureAll(entries: Entries): seq<Step> {
    if entries == [] then [] else [Secure(entries[0].0)] + SecureAll(entries[1..])
  }

  /** Reached from `start` by a chain of the given number of edges. */
  ghost predicate ReachedIn(edges: iset<(nat, nat)>, start: nat, length: nat, m: nat) {
    if length == 0 then m == start else exists n: nat :: ReachedIn(edges, start, length - 1, n) && (n, m) in edges
  }

  ghost predicate Reached(edges: iset<(nat, nat)>, start: nat, m: nat) {
    exists length: nat :: ReachedIn(edges, start, length, m)
  }

  lemma ReachedStart(edges: iset<(nat, nat)>, start: nat)
    ensures Reached(edges, start, start)
  {
    assert ReachedIn(edges, start, 0, start);
  }

  lemma ReachedStep(edges: iset<(nat, nat)>, start: nat, n: nat, m: nat)
    requires Reached(edges, start, n) && (n, m) in edges
    ensures Reached(edges, start, m)
  {
    var length: nat :| ReachedIn(edges, start, length, n);
    assert ReachedIn(edges, start, length + 1, m);
  }

  lemma {:induction false} ReachedWithin(edges: iset<(nat, nat)>, start: nat, length: nat, m: nat, closed: set<nat>)
    requires start in closed && ReachedIn(edges, start, length, m)
    requires forall n, t :: n in closed && (n, t) in edges ==> t in closed
    ensures m in closed
  {
    if length != 0 {
      var n: nat :| ReachedIn(edges, start, length - 1, n) && (n, m) in edges;
      ReachedWithin(edges, start, length - 1, n, closed);
    }
  }

  /** Any closed set that holds the start holds everything reached. */
  lemma {:induction false} ReachedIsLeast(edges: iset<(nat, nat)>, start: nat, m: nat, closed: set<nat>)
    requires start in closed && Reached(edges, start, m)
    requires forall n, t :: n in closed && (n, t) in edges ==> t in closed
    ensures m in closed
  {
    var length: nat :| ReachedIn(edges, start, length, m);
    ReachedWithin(edges, start, length, m, closed);
  }

  /** Reachability only depends on the edges that leave what is reached. */
  lemma {:induction false} SameEdgesReach(a: iset<(nat, nat)>, b: iset<(nat, nat)>, start: nat, length: nat, m: nat)
    requires forall n: nat, t: nat :: Reached(a, start, n) ==> ((n, t) in a <==> (n, t) in b)
    ensures ReachedIn(a, start, length, m) <==> ReachedIn(b, start, length, m)
  {
    if length > 0 {
      if ReachedIn(a, start, length, m) {
        var n: nat :| ReachedIn(a, start, length - 1, n) && (n, m) in a;
        SameEdgesReach(a, b, start, length - 1, n);
        assert Reached(a, start, n);
      }
      if ReachedIn(b, start, length, m) {
        var n: nat :| ReachedIn(b, start, length - 1, n) && (n, m) in b;
        SameEdgesReach(a, b, start, length - 1, n);
        assert Reached(a, start, n);
      }
    }
  }

  /** A document: the heap, the node of the whole schema and the node of its components. */
  datatype Doc = Doc(heap: Heap, root: nat, comp: nat, decode: string -> Option<string>) {

    function Property(n: nat, key: string): Option<Value> {
      if n in heap then Find(heap[n].entries, key) else None
    }

    function Definitions(group: string): Option<nat> {
      var d := Property(comp, group);
      if IsObject(heap, d) then Some(d.value.node) else None
    }

    /** The definition a component name stands for, if there is one. */
    function Definition(c: Component): Option<Value> {
      var d := Definitions(c.0);
      if d.Some? && d.value in heap then Own(heap[d.value], c.1) else None
    }

    function Walk(target: Value, parts: seq<string>): Option<Value>
      decreases |parts|
    {
      if parts == [] then Some(target)
      else if !target.Ref? || target.node !in heap then None
      else
        var next := Own(heap[target.node], parts[0]);
        if next == None then None else Walk(next.value, parts[1..])
    }

    /** Whether a discriminator value is the plain name of a schema. */
    predicate NamesSchema(name: string) {
      var schemas := Property(comp, "schemas");
      schemas.Some? && match schemas.value
        case Plain => false
        case Text(t) => t != "" && (name == "length" || exists i :: 0 <= i < |t| && name == Decimal.Format(i))
        case Ref(n) => n in heap && Own(heap[n], name).Some?
    }

    function Keeping(c: Component): Option<Component> {
      if Definition(c).Some? then Some(c) else None
    }

    function Following(reference: string, byName: bool): Effect {
      if byName && NamesSchema(reference) then Effect(Keeping(("schemas", reference)), None, false)
      else
        var parts := PartsOf(reference, decode);
        if parts == None then NO_EFFECT.(bad := true)
        else
          var target := Walk(Ref(root), parts.value);
          if target == None then NO_EFFECT.(bad := true)
          else if parts.value[0] != "components" then Effect(None, target, false)
          else if |parts.value| < 3 then NO_EFFECT.(bad := true)
          else Effect(Keeping((parts.value[1], parts.value[2])), target, false)
    }

    function EffectOf(step: Step): Effect {
      match step
      case Visit(child) => Effect(None, Some(child), false)
      case Secure(name) => Effect(Keeping(("securitySchemes", name)), None, false)
      case Follow(value, byName) =>
        if value.Some? && value.value.Text? then Following(value.value.text, byName) else NO_EFFECT
    }

    function MappingSteps(n: nat): seq<Step> {
      var discriminator := Property(n, "discriminator");
      if !IsObject(heap, discriminator) then []
      else
        var mapping := Property(discriminator.value.node, "mapping");
        if IsObject(heap, mapping) then FollowAll(heap[mapping.value.node].entries) else []
    }

    function RequirementSteps(requirements: Entries): seq<Step> {
      if requirements == [] then []
      else
        (if IsObject(heap, Some(requirements[0].1)) then SecureAll(heap[requirements[0].1.node].entries) else [])
        + RequirementSteps(requirements[1..])
    }

    function SecuritySteps(n: nat): seq<Step> {
      var security := Property(n, "security");
      if IsObject(heap, security) && heap[security.value.node].isArray
      then RequirementSteps(heap[security.value.node].entries) else []
    }

    /** The steps of one visited object, in the order the source takes them. */
    function Steps(n: nat): seq<Step>
      requires n in heap
    {
      [Follow(Property(n, "$ref"), false), Follow(Property(n, "$dynamicRef"), false)]
      + MappingSteps(n) + SecuritySteps(n) + VisitAll(heap[n].entries)
    }

    function DefinitionFor(step: Step): Option<Value> {
      var e := EffectOf(step);
      if e.keeps.Some? then Definition(e.keeps.value) else None
    }

    /** One link of a chain: a child, a resolved reference, or a kept component's definition. */
    ghost predicate Leads(step: Step, m: nat) {
      EffectOf(step).pushes == Some(Ref(m)) || DefinitionFor(step) == Some(Ref(m))
    }

    ghost predicate Edge(n: nat, m: nat) {
      n in heap && m in heap && exists step :: step in Steps(n) && Leads(step, m)
    }

    ghost function Edges(): iset<(nat, nat)> {
      iset n: nat, m: nat | Edge(n, m) :: (n, m)
    }

    /** The least set that holds `start` and is closed under children and references. */
    ghost predicate Live(start: nat, m: nat) {
      Reached(Edges(), start, m)
    }

    /** Some live object asks for the component. */
    ghost predicate Wanted(start: nat, c: Component) {
      exists n, step :: n in heap && Live(start, n) && step in Steps(n) && EffectOf(step).keeps == Some(c)
    }

    /** Some live object holds a reference that does not resolve. */
    ghost predicate Unresolved(start: nat) {
      exists n, step :: n in heap && Live(start, n) && step in Steps(n) && EffectOf(step).bad
    }

    ghost predicate Done(step: Step, marks: Marks) {
      EffectDone(EffectOf(step), DefinitionFor(step), marks, heap.Keys)
    }

    ghost predicate Complete(nodes: set<nat>, marks: Marks) {
      forall n, step :: n in nodes && n in heap && step in Steps(n) ==> Done(step, marks)
    }

    /** Nothing is recorded that the live objects do not ask for. */
    ghost predicate Sound(start: nat, marks: Marks) {
      && (forall m :: m in marks.visited ==> m in heap && Live(start, m))
      && (forall m :: Ref(m) in marks.pending && m in heap ==> Live(start, m))
      && (forall c :: c in marks.retained ==> Wanted(start, c))
      && (marks.unresolved ==> Unresolved(start))
    }

    ghost predicate DefinitionsSeen(marks: Marks) {
      forall c, m :: c in marks.retained && m in heap && Definition(c) == Some(Ref(m)) ==> marks.Seen(m)
    }

    lemma CompleteGrows(nodes: set<nat>, marks: Marks, later: Marks)
      requires Complete(nodes, marks) && marks.Grows(later, heap.Keys)
      ensures Complete(nodes, later)
    {
      forall n, step | n in nodes && n in heap && step in Steps(n)
        ensures Done(step, later)
      {
        assert Done(step, marks);
        EffectStaysDone(EffectOf(step), DefinitionFor(step), marks, later, heap.Keys);
      }
    }

    lemma TakePendingLive(start: nat, marks: Marks, n: nat, step: Step, m: nat)
      requires Sound(start, marks) && n in heap && Live(start, n) && step in Steps(n)
      requires m in heap && Ref(m) in After(marks, EffectOf(step), DefinitionFor(step)).pending
      ensures Live(start, m)
    {
      AfterPending(marks, EffectOf(step), DefinitionFor(step), Ref(m));
      if Ref(m) !in marks.pending {
        assert Leads(step, m);
        assert Edge(n, m);
        ReachedStep(Edges(), start, n, m);
      }
    }

    lemma TakeSound(start: nat, marks: Marks, n: nat, step: Step)
      requires Sound(start, marks) && n in heap && Live(start, n) && step in Steps(n)
      ensures Sound(start, After(marks, EffectOf(step), DefinitionFor(step)))
    {
      var e := EffectOf(step);
      var later := After(marks, e, DefinitionFor(step));
      forall m | Ref(m) in later.pending && m in heap
        ensures Live(start, m)
      {
        TakePendingLive(start, marks, n, step, m);
      }
      if e.keeps.Some? {
        assert Wanted(start, e.keeps.value);
      }
      if e.bad {
        assert Unresolved(start);
      }
    }

    lemma TakeDone(marks: Marks, step: Step)
      requires DefinitionsSeen(marks)
      ensures var later := After(marks, EffectOf(step), DefinitionFor(step));
        Done(step, later) && DefinitionsSeen(later)
    {
      var e, d := EffectOf(step), DefinitionFor(step);
      AfterDone(marks, e, d, heap.Keys);
      AfterGrows(marks, e, d, heap.Keys);
    }

    /** Invariant of the inner loop: `n` is being visited, its first `k` steps are done. */
    ghost predicate Visiting(start: nat, before: set<nat>, n: nat, k: nat, marks: Marks) {
      && start in heap && n in heap && k <= |Steps(n)| && marks.visited == before + {n} && marks.Seen(start)
      && Sound(start, marks) && DefinitionsSeen(marks) && Complete(before, marks)
      && forall j :: 0 <= j < k ==> Done(Steps(n)[j], marks)
    }

    /** Invariant of the worklist. */
    ghost predicate Marking(start: nat, marks: Marks) {
      && start in heap && marks.visited <= heap.Keys && marks.Seen(start)
      && Sound(start, marks) && DefinitionsSeen(marks) && Complete(marks.visited, marks)
    }

    lemma TakeKeepsVisiting(start: nat, before: set<nat>, n: nat, k: nat, marks: Marks)
      requires Visiting(start, before, n, k, marks) && k < |Steps(n)|
      ensures Visiting(start, before, n, k + 1, After(marks, EffectOf(Steps(n)[k]), DefinitionFor(Steps(n)[k])))
    {
      var step := Steps(n)[k];
      var later := After(marks, EffectOf(step), DefinitionFor(step));
      TakeSound(start, marks, n, step);
      TakeDone(marks, step);
      AfterGrows(marks, EffectOf(step), DefinitionFor(step), heap.Keys);
      CompleteGrows(before, marks, later);
      forall j | 0 <= j < k
        ensures Done(Steps(n)[j], later)
      {
        EffectStaysDone(EffectOf(Steps(n)[j]), DefinitionFor(Steps(n)[j]), marks, later, heap.Keys);
      }
    }

    lemma VisitedAll(start: nat, before: set<nat>, n: nat, marks: Marks)
      requires before <= heap.Keys && n in heap && Visiting(start, before, n, |Steps(n)|, marks)
      ensures Marking(start, marks)
    {
      forall m, step | m in marks.visited && m in heap && step in Steps(m)
        ensures Done(step, marks)
      {
        if m == n {
          var j :| 0 <= j < |Steps(n)| && Steps(n)[j] == step;
        }
      }
    }

    lemma StartMarking(start: nat)
      requires start in heap
      ensures Marking(start, Marks({}, [Ref(start)], {}, false))
    {
      ReachedStart(Edges(), start);
    }

    /** Popping a value that needs no visit. */
    lemma PopSkip(start: nat, marks: Marks, value: Value, later: Marks)
      requires Marking(start, marks) && marks.pending == later.pending + [value]
        && later == marks.(pending := later.pending)
      requires !value.Ref? || value.node !in heap || value.node in marks.visited
      ensures Marking(start, later)
    {
      assert forall v :: v in marks.pending <==> v in later.pending || v == value;
      CompleteGrows(marks.visited, marks, later);
    }

    /** Popping a node and starting its visit. */
    lemma PopVisit(start: nat, marks: Marks, n: nat, later: Marks)
      requires Marking(start, marks) && marks.pending == later.pending + [Ref(n)] && n in heap
      requires later == marks.(pending := later.pending, visited := marks.visited + {n})
      ensures Visiting(start, marks.visited, n, 0, later)
    {
      assert forall v :: v in marks.pending <==> v in later.pending || v == Ref(n);
      CompleteGrows(marks.visited, marks, later);
    }

    /** When nothing is pending, the marks are exactly what the live objects ask for. */
    lemma {:induction false} MarksAreLeast(start: nat, marks: Marks)
      requires start in heap && marks.pending == [] && Marking(start, marks)
      ensures forall m :: m in marks.visited <==> m in heap && Live(start, m)
      ensures forall c :: c in marks.retained <==> Wanted(start, c)
      ensures marks.unresolved <==> Unresolved(start)
    {
      forall n, t | n in marks.visited && (n, t) in Edges()
        ensures t in marks.visited
      {
        var step :| step in Steps(n) && Leads(step, t);
        assert Done(step, marks);
      }
      forall m | m in heap && Live(start, m)
        ensures m in marks.visited
      {
        ReachedIsLeast(Edges(), start, m, marks.visited);
      }
      forall n, step | n in heap && Live(start, n) && step in Steps(n)
        ensures Done(step, marks)
      {
      }
      forall c | Wanted(start, c)
        ensures c in marks.retained
      {
        var n, step :| n in heap && Live(start, n) && step in Steps(n) && EffectOf(step).keeps == Some(c);
        assert Done(step, marks);
      }
      if Unresolved(start) {
        var n, step :| n in heap && Live(start, n) && step in Steps(n) && EffectOf(step).bad;
        assert Done(step, marks);
      }
    }
  }

  // ----- the worklist -----

  /** The marks the worklist has made so far. */
  datatype Marks = Marks(visited: set<nat>, pending: seq<Value>, retained: set<Component>, unresolved: bool) {

    ghost predicate Seen(m: nat) {
      m in visited || Ref(m) in pending
    }

    /** Nothing recorded in `this` is lost in `later`. */
    ghost predicate Grows(later: Marks, nodes: set<nat>) {
      && (forall m :: m in nodes && Seen(m) ==> later.Seen(m))
      && retained <= later.retained
      && (unresolved ==> later.unresolved)
    }
  }

  /** Everything an effect asks for has been recorded or is still pending. */
  ghost predicate EffectDone(e: Effect, definition: Option<Value>, marks: Marks, nodes: set<nat>) {
    && (e.keeps.Some? ==> e.keeps.value in marks.retained)
    && (e.bad ==> marks.unresolved)
    && (forall m :: m in nodes && e.pushes == Some(Ref(m)) ==> marks.Seen(m))
    && (forall m :: m in nodes && e.keeps.Some? && definition == Some(Ref(m)) ==> marks.Seen(m))
  }

  lemma EffectStaysDone(e: Effect, definition: Option<Value>, marks: Marks, later: Marks, nodes: set<nat>)
    requires EffectDone(e, definition, marks, nodes) && marks.Grows(later, nodes)
    ensures EffectDone(e, definition, later, nodes)
  {
  }

  /** The marks after an effect. */
  function After(marks: Marks, e: Effect, definition: Option<Value>): Marks {
    Marks(marks.visited,
      marks.pending
        + (if e.keeps.Some? && e.keeps.value !in marks.retained && definition.Some? then [definition.value] else [])
        + (if e.pushes.Some? then [e.pushes.value] else []),
      marks.retained + (if e.keeps.Some? then {e.keeps.value} else {}),
      marks.unresolved || e.bad)
  }

  lemma AfterGrows(marks: Marks, e: Effect, definition: Option<Value>, nodes: set<nat>)
    ensures marks.Grows(After(marks, e, definition), nodes)
  {
  }

  lemma AfterDone(marks: Marks, e: Effect, definition: Option<Value>, nodes: set<nat>)
    requires e.keeps.Some? && e.keeps.value in marks.retained ==>
      forall m :: m in nodes && definition == Some(Ref(m)) ==> marks.Seen(m)
    ensures EffectDone(e, definition, After(marks, e, definition), nodes)
  {
    AfterGrows(marks, e, definition, nodes);
    var later := After(marks, e, definition);
    if e.pushes.Some? {
      assert later.pending[|later.pending| - 1] == e.pushes.value;
    }
    if e.keeps.Some? && e.keeps.value !in marks.retained && definition.Some? {
      assert later.pending[|marks.pending|] == definition.value;
    }
  }

  lemma AfterPending(marks: Marks, e: Effect, definition: Option<Value>, v: Value)
    requires v in After(marks, e, definition).pending
    ensures v in marks.pending || e.pushes == Some(v) || (e.keeps.Some? && definition == Some(v))
  {
  }

  class Marker {
    const doc: Doc
    var retained: set<Component>
    var visited: set<nat>
    var pending: seq<Value>
    var unresolved: bool

    constructor (doc: Doc, start: nat)
      ensures this.doc == doc && retained == {} && visited == {} && pending == [Ref(start)] && !unresolved
    {
      this.doc := doc;
      retained, visited, pending, unresolved := {}, {}, [Ref(start)], false;
    }

    /** Keeps a component that is defined, and has its definition visited the first time. */
    method Retain(c: Component)
      modifies this`retained, this`pending
      ensures var added := doc.Definition(c).Some? && c !in old(retained);
        && retained == old(retained) + (if added then {c} else {})
        && pending == old(pending) + (if added then [doc.Definition(c).value] else [])
    {
      var definitions := doc.Definitions(c.0);
      if definitions == None || definitions.value !in doc.heap || Own(doc.heap[definitions.value], c.1) == None {
        return;
      }
      if c in retained {
        return;
      }
      retained := retained + {c};
      pending := pending + [doc.Definition(c).value];
    }

    method FollowReference(reference: Option<Value>, allowSchemaName: bool)
      modifies this`retained, this`pending, this`unresolved
      ensures var step := Follow(reference, allowSchemaName);
        Marked() == After(old(Marked()), doc.EffectOf(step), doc.DefinitionFor(step))
    {
      if reference == None || !reference.value.Text? {
        return;
      }
      var text := reference.value.text;
      if allowSchemaName && doc.NamesSchema(text) {
        Retain(("schemas", text));
        return;
      }
      var parts := PartsOf(text, doc.decode);
      if parts == None {
        unresolved := true;
        return;
      }
      var target := doc.Walk(Ref(doc.root), parts.value);
      if target == None {
        unresolved := true;
        return;
      }
      if parts.value[0] == "components" {
        if |parts.value| < 3 {
          unresolved := true;
          return;
        }
        Retain((parts.value[1], parts.value[2]));
      }
      pending := pending + [target.value];
    }

    ghost function Marked(): Marks
      reads this
    {
      Marks(visited, pending, retained, unresolved)
    }

    method Take(step: Step)
      modifies this`retained, this`pending, this`unresolved
      ensures Marked() == After(old(Marked()), doc.EffectOf(step), doc.DefinitionFor(step))
    {
      match step
      case Visit(child) => pending := pending + [child];
      case Secure(name) => Retain(("securitySchemes", name));
      case Follow(value, byName) => FollowReference(value, byName);
    }

    /** Takes all steps of one object, in order. */
    method TakeAll(n: nat, ghost start: nat, ghost before: set<nat>)
      requires n in doc.heap && doc.Visiting(start, before, n, 0, Marked())
      modifies this`retained, this`pending, this`unresolved
      ensures doc.Visiting(start, before, n, |doc.Steps(n)|, Marked())
    {
      var steps := doc.Steps(n);
      for k := 0 to |steps|
        invariant doc.Visiting(start, before, n, k, Marked())
      {
        doc.TakeKeepsVisiting(start, before, n, k, Marked());
        Take(steps[k]);
      }
    }

    /** The worklist terminates on every heap and finds exactly the live objects, the components they
        ask for, and whether any of their references is unresolved. */
    method Run(start: nat)
      requires start in doc.heap && visited == {} && pending == [Ref(start)] && retained == {} && !unresolved
      modifies this`retained, this`pending, this`unresolved, this`visited
      ensures forall m :: m in visited <==> m in doc.heap && doc.Live(start, m)
      ensures forall c :: c in retained <==> doc.Wanted(start, c)
      ensures unresolved <==> doc.Unresolved(start)
    {
      doc.StartMarking(start);
      while |pending| > 0
        invariant doc.Marking(start, Marked())
        decreases doc.heap.Keys - visited, |pending|
      {
        ghost var marks := Marked();
        var value := pending[|pending| - 1];
        pending := pending[..|pending| - 1];
        if !value.Ref? || value.node !in doc.heap || value.node in visited {
          doc.PopSkip(start, marks, value, Marked());
        } else {
          visited := visited + {value.node};
          doc.PopVisit(start, marks, value.node, Marked());
          TakeAll(value.node, start, marks.visited);
          doc.VisitedAll(start, marks.visited, value.node, Marked());
        }
      }
      doc.MarksAreLeast(start, Marked());
    }
  }
  // ----- deletion -----

  const GROUPS: seq<string> := ["schemas", "responses", "parameters", "examples", "requestBodies",
                                "headers", "securitySchemes", "links", "callbacks", "pathItems"]

  function Group(h: Heap, comp: nat, group: string): Option<Value> {
    if comp in h then Find(h[comp].entries, group) else None
  }

  function Unkept(entries: Entries, group: string, kept: set<Component>): set<string> {
    set i | 0 <= i < |entries| && (group, entries[i].0) !in kept :: entries[i].0
  }

  function Without(node: Node, keys: set<string>): Node {
    node.(entries := Drop(node.entries, keys))
  }

  lemma WithoutTwice(node: Node, a: set<string>, b: set<string>)
    ensures Without(Without(node, a), b) == Without(node, a + b)
  {
    DropTwice(node.entries, a, b);
  }

  /** One group of components after pruning: names not kept are gone, and so is the group if it is left empty. */
  function PruneGroup(h: Heap, comp: nat, group: string, kept: set<Component>): Heap {
    var definitions := Group(h, comp, group);
    if !IsRecord(h, definitions) then h
    else
      var d := definitions.value.node;
      var h1 := h[d := Without(h[d], Unkept(h[d].entries, group, kept))];
      if h1[d].entries == [] then h1[comp := Without(h1[comp], {group})] else h1
  }

  function PruneGroups(h: Heap, comp: nat, groups: seq<string>, kept: set<Component>): Heap {
    if groups == [] then h
    else PruneGroup(PruneGroups(h, comp, groups[..|groups| - 1], kept), comp, groups[|groups| - 1], kept)
  }

  lemma PruneGroupsSnoc(h: Heap, comp: nat, front: seq<string>, last: string, kept: set<Component>)
    ensures PruneGroups(h, comp, front + [last], kept)
      == PruneGroup(PruneGroups(h, comp, front, kept), comp, last, kept)
  {
    assert (front + [last])[..|front|] == front;
  }

  class Document {
    var heap: Heap
    const root: nat
    const decode: string -> Option<string>

    constructor (heap: Heap, root: nat, decode: string -> Option<string>)
      ensures this.heap == heap && this.root == root && this.decode == decode
    {
      this.heap, this.root, this.decode := heap, root, decode;
    }

    /** The document with the view the worklist starts from: the schema without its components. */
    function Viewed(view: nat): Doc
      requires root in heap
      reads this
    {
      var c := Find(heap[root].entries, "components");
      Doc(heap[view := Node(false, Drop(heap[root].entries, {"components"}))], root,
        if IsRecord(heap, c) then c.value.node else root, decode)
    }

    method PruneNames(d: nat, group: string, kept: set<Component>)
      requires d in heap
      modifies this`heap
      ensures heap == old(heap)[d := Without(old(heap)[d], Unkept(old(heap)[d].entries, group, kept))]
    {
      var names := heap[d].entries;
      ghost var before := heap;
      DropNothing(names, {});
      assert Unkept(names[..0], group, kept) == {};
      for i := 0 to |names|
        invariant d in heap && heap == before[d := heap[d]]
        invariant heap[d] == Without(before[d], Unkept(names[..i], group, kept))
      {
        var name := names[i].0;
        assert names[..i + 1] == names[..i] + [names[i]];
        UnkeptSnoc(names[..i], names[i], group, kept);
        if (group, name) !in kept {
          WithoutTwice(before[d], Unkept(names[..i], group, kept), {name});
          heap := heap[d := Without(heap[d], {name})];
        }
      }
      assert names[..|names|] == names;
    }

    method PruneDefinitions(comp: nat, group: string, kept: set<Component>)
      modifies this`heap
      ensures heap == PruneGroup(old(heap), comp, group, kept)
    {
      var definitions := Group(heap, comp, group);
      if !IsRecord(heap, definitions) {
        return;
      }
      var d := definitions.value.node;
      PruneNames(d, group, kept);
      if heap[d].entries == [] {
        heap := heap[comp := Without(heap[comp], {group})];
      }
    }

    /** Deletes the components nothing visible refers to. `view` is the identity of the object made to start from.
        Without a components object, or with an unresolved reference, the document stays as it is. */
    method Prune(view: nat) returns (ghost kept: set<Component>)
      requires root in heap && view !in heap
      modifies this`heap
      ensures var doc := old(Viewed(view));
        if !IsRecord(old(heap), Find(old(heap)[root].entries, "components")) || doc.Unresolved(view)
        then heap == old(heap)
        else
          && (forall c :: c in kept <==> doc.Wanted(view, c))
          && heap == PruneGroups(old(heap), doc.comp, GROUPS, kept)
    {
      kept := {};
      var components := Find(heap[root].entries, "components");
      if !IsRecord(heap, components) {
        return;
      }
      var marker := new Marker(Viewed(view), view);
      marker.Run(view);
      kept := marker.retained;
      if !marker.unresolved {
        PruneComponents(components.value.node, marker.retained);
      }
    }

    method PruneComponents(comp: nat, kept: set<Component>)
      modifies this`heap
      ensures heap == PruneGroups(old(heap), comp, GROUPS, kept)
    {
      ghost var before := heap;
      for i := 0 to |GROUPS|
        invariant heap == PruneGroups(before, comp, GROUPS[..i], kept)
      {
        assert GROUPS[..i + 1] == GROUPS[..i] + [GROUPS[i]];
        PruneGroupsSnoc(before, comp, GROUPS[..i], GROUPS[i], kept);
        PruneDefinitions(comp, GROUPS[i], kept);
      }
      assert GROUPS[..|GROUPS|] == GROUPS;
    }
  }

  lemma UnkeptSnoc(front: Entries, last: (string, Value), group: string, kept: set<Component>)
    ensures Unkept(front + [last], group, kept)
         == if (group, last.0) in kept then Unkept(front, group, kept) else Unkept(front, group, kept) + {last.0}
  {
    var all := front + [last];
    assert all[|front|] == last;
    assert forall i :: 0 <= i < |front| ==> all[i] == front[i];
    forall name | name in Unkept(front, group, kept)
      ensures name in Unkept(all, group, kept)
    {
      var i :| 0 <= i < |front| && front[i].0 == name && (group, name) !in kept;
      assert all[i].0 == name;
    }
  }
}
