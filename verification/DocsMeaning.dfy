/** What pruning keeps, said of the heap alone: `Closed` lists what a visible object makes visible or needed, and
    `Needed` is the least of what that closes. The worklist finds exactly that. */
module DocsMeaning {
  import opened Seqs
  import opened DocsPrune
  import Decimal

  // ----- own properties -----

  /** The entries hold this value under the key, first of all that have the key. */
  ghost predicate First(entries: Entries, key: string, v: Value) {
    exists i :: FirstAt(entries, key, v, i)
  }

  ghost predicate FirstAt(entries: Entries, key: string, v: Value, i: int) {
    0 <= i < |entries| && entries[i] == (key, v) && forall j :: 0 <= j < i ==> entries[j].0 != key
  }

  lemma FirstAtTail(entries: Entries, key: string, v: Value, i: int)
    requires entries != [] && entries[0].0 != key && i >= 0
    ensures FirstAt(entries[1..], key, v, i) <==> FirstAt(entries, key, v, i + 1)
  {
    assert forall j :: 0 <= j < |entries| - 1 ==> entries[1..][j] == entries[j + 1];
    assert forall j :: 1 <= j < |entries| ==> entries[j] == entries[1..][j - 1];
  }

  lemma {:induction false} FindIsFirst(entries: Entries, key: string, v: Value)
    ensures Find(entries, key) == Some(v) <==> First(entries, key, v)
  {
    if entries != [] && entries[0].0 != key {
      FindIsFirst(entries[1..], key, v);
      if i :| FirstAt(entries[1..], key, v, i) {
        FirstAtTail(entries, key, v, i);
      }
      if i :| FirstAt(entries, key, v, i) {
        FirstAtTail(entries, key, v, i - 1);
      }
    } else if entries != [] {
      assert FirstAt(entries, key, entries[0].1, 0);
    }
  }

  ghost predicate Has(doc: Doc, n: nat, key: string, v: Value) {
    n in doc.heap && First(doc.heap[n].entries, key, v)
  }

  /** An own property; an array also owns its length. */
  ghost predicate Owns(doc: Doc, n: nat, key: string, v: Value) {
    || Has(doc, n, key, v)
    || (n in doc.heap && doc.heap[n].isArray && key == "length" && v == Plain && !exists w :: Has(doc, n, key, w))
  }

  lemma PropertyIs(doc: Doc, n: nat, key: string, v: Value)
    ensures doc.Property(n, key) == Some(v) <==> Has(doc, n, key, v)
  {
    if n in doc.heap {
      FindIsFirst(doc.heap[n].entries, key, v);
    }
  }

  lemma OwnIs(doc: Doc, n: nat, key: string, v: Value)
    requires n in doc.heap
    ensures Own(doc.heap[n], key) == Some(v) <==> Owns(doc, n, key, v)
  {
    PropertyIs(doc, n, key, v);
    var found := Find(doc.heap[n].entries, key);
    if found.Some? {
      PropertyIs(doc, n, key, found.value);
    }
    if w :| Has(doc, n, key, w) {
      PropertyIs(doc, n, key, w);
    }
  }

  // ----- definitions and references -----

  /** The component is defined, as this. */
  ghost predicate Defined(doc: Doc, c: Component, v: Value) {
    exists g: nat :: Has(doc, doc.comp, c.0, Ref(g)) && Owns(doc, g, c.1, v)
  }

  lemma DefinitionIs(doc: Doc, c: Component, v: Value)
    ensures doc.Definition(c) == Some(v) <==> Defined(doc, c, v)
  {
    var d := doc.Property(doc.comp, c.0);
    if d.Some? {
      PropertyIs(doc, doc.comp, c.0, d.value);
      if d.value.Ref? && d.value.node in doc.heap {
        OwnIs(doc, d.value.node, c.1, v);
      }
    }
    if Defined(doc, c, v) {
      var g: nat :| Has(doc, doc.comp, c.0, Ref(g)) && Owns(doc, g, c.1, v);
      PropertyIs(doc, doc.comp, c.0, Ref(g));
      OwnIs(doc, g, c.1, v);
    }
  }

  /** The text is the plain name of a schema; a string in the schemas' place owns its length and its positions. */
  ghost predicate SchemaNamed(doc: Doc, text: string) {
    || (exists v :: Defined(doc, ("schemas", text), v))
    || (exists t: string :: Has(doc, doc.comp, "schemas", Text(t)) && t != ""
          && (text == "length" || exists i :: 0 <= i < |t| && text == Decimal.Format(i)))
  }

  lemma NamesSchemaIs(doc: Doc, text: string)
    ensures doc.NamesSchema(text) <==> SchemaNamed(doc, text)
  {
    var schemas := doc.Property(doc.comp, "schemas");
    if schemas.Some? {
      PropertyIs(doc, doc.comp, "schemas", schemas.value);
      if schemas.value.Ref? && schemas.value.node in doc.heap {
        var own := Own(doc.heap[schemas.value.node], text);
        if own.Some? {
          DefinitionIs(doc, ("schemas", text), own.value);
        }
      }
    }
    if v :| Defined(doc, ("schemas", text), v) {
      DefinitionIs(doc, ("schemas", text), v);
    }
    if t: string :| Has(doc, doc.comp, "schemas", Text(t)) {
      PropertyIs(doc, doc.comp, "schemas", Text(t));
    }
  }

  /** The reference starts with "#/", and what follows the number sign, percent-decoded, holds these pieces after its
      first character, separated by slashes; the parts are the pieces with ~1 and then ~0 replaced. */
  ghost predicate PointsBy(doc: Doc, text: string, pieces: seq<string>, parts: seq<string>) {
    && |text| >= 2 && text[0] == '#' && text[1] == '/' && doc.decode(text[1..]).Some?
    && pieces != [] && (forall p :: p in pieces ==> '/' !in p)
    && Join(pieces, '/') == Tail(doc.decode(text[1..]).value)
    && |parts| == |pieces| && forall k :: 0 <= k < |parts| ==> parts[k] == Unescape(pieces[k])
  }

  ghost predicate Points(doc: Doc, text: string, parts: seq<string>) {
    exists pieces :: PointsBy(doc, text, pieces, parts)
  }

  lemma {:induction false} UnescapeAllIs(pieces: seq<string>, k: nat)
    requires k < |pieces|
    ensures UnescapeAll(pieces)[k] == Unescape(pieces[k])
  {
    if k > 0 {
      UnescapeAllIs(pieces[1..], k - 1);
    }
  }

  lemma PartsOfIs(doc: Doc, text: string, parts: seq<string>)
    ensures PartsOf(text, doc.decode) == Some(parts) <==> Points(doc, text, parts)
  {
    if PartsOf(text, doc.decode) == Some(parts) {
      var tail := Tail(doc.decode(text[1..]).value);
      var pieces := Split(tail, '/');
      assert text[..2] == "#/";
      JoinSplit(tail, '/');
      forall p | p in pieces ensures '/' !in p {
        var k :| 0 <= k < |pieces| && pieces[k] == p;
        SplitPieces(tail, '/', k);
      }
      forall k | 0 <= k < |parts| ensures parts[k] == Unescape(pieces[k]) {
        UnescapeAllIs(pieces, k);
      }
      assert PointsBy(doc, text, pieces, parts);
    }
    if Points(doc, text, parts) {
      var pieces :| PointsBy(doc, text, pieces, parts);
      SplitJoin(pieces, '/');
      assert text[..2] == "#/";
      forall k | 0 <= k < |parts| ensures parts[k] == UnescapeAll(pieces)[k] {
        UnescapeAllIs(pieces, k);
      }
      assert parts == UnescapeAll(pieces);
    }
  }

  /** The values passed through from one to another, each an own property of the one before. */
  ghost predicate Chain(doc: Doc, parts: seq<string>, values: seq<Value>) {
    |values| == |parts| + 1 && forall k :: 0 <= k < |parts| ==>
      values[k].Ref? && Owns(doc, values[k].node, parts[k], values[k + 1])
  }

  ghost predicate LeadsTo(doc: Doc, from: Value, parts: seq<string>, v: Value) {
    exists values :: Chain(doc, parts, values) && values[0] == from && values[|parts|] == v
  }

  lemma {:induction false} WalkIs(doc: Doc, from: Value, parts: seq<string>, v: Value)
    ensures doc.Walk(from, parts) == Some(v) <==> LeadsTo(doc, from, parts, v)
    decreases |parts|
  {
    if parts == [] {
      assert Chain(doc, parts, [from]);
    } else {
      if doc.Walk(from, parts) == Some(v) {
        var next := Own(doc.heap[from.node], parts[0]).value;
        OwnIs(doc, from.node, parts[0], next);
        WalkIs(doc, next, parts[1..], v);
        var values: seq<Value> :| Chain(doc, parts[1..], values) && values[0] == next && values[|parts| - 1] == v;
        var all := [from] + values;
        forall k | 0 <= k < |parts| ensures all[k].Ref? && Owns(doc, all[k].node, parts[k], all[k + 1]) {
          assert k > 0 ==> parts[k] == parts[1..][k - 1];
        }
        assert Chain(doc, parts, all);
      }
      if LeadsTo(doc, from, parts, v) {
        var values: seq<Value> :| Chain(doc, parts, values) && values[0] == from && values[|parts|] == v;
        OwnIs(doc, from.node, parts[0], values[1]);
        forall k | 0 <= k < |parts[1..]|
          ensures values[1..][k].Ref? && Owns(doc, values[1..][k].node, parts[1..][k], values[1..][k + 1])
        {
          assert values[k + 1].Ref? && Owns(doc, values[k + 1].node, parts[k + 1], values[k + 2]);
        }
        assert Chain(doc, parts[1..], values[1..]);
        WalkIs(doc, values[1], parts[1..], v);
      }
    }
  }

  /** The reference resolves; inside the components that takes a group and a name at least. */
  ghost predicate Resolves(doc: Doc, text: string, parts: seq<string>, v: Value) {
    && Points(doc, text, parts) && LeadsTo(doc, Ref(doc.root), parts, v)
    && (parts[0] == "components" ==> |parts| >= 3)
  }

  // ----- what an object refers to -----

  ghost predicate Mapped(doc: Doc, n: nat, d: nat, m: nat, i: nat, text: string) {
    && Has(doc, n, "discriminator", Ref(d)) && Has(doc, d, "mapping", Ref(m))
    && m in doc.heap && i < |doc.heap[m].entries| && doc.heap[m].entries[i].1 == Text(text)
  }

  /** The object holds this reference: under `$ref` or `$dynamicRef`, or in the mapping of its discriminator, where it
      may also be the name of a schema. */
  ghost predicate Refers(doc: Doc, n: nat, text: string, byName: bool) {
    if byName then exists d: nat, m: nat, i: nat :: Mapped(doc, n, d, m, i, text)
    else Has(doc, n, "$ref", Text(text)) || Has(doc, n, "$dynamicRef", Text(text))
  }

  ghost predicate Required(doc: Doc, n: nat, s: nat, i: nat, q: nat, j: nat, name: string) {
    && Has(doc, n, "security", Ref(s)) && s in doc.heap && doc.heap[s].isArray
    && i < |doc.heap[s].entries| && doc.heap[s].entries[i].1 == Ref(q)
    && q in doc.heap && j < |doc.heap[q].entries| && doc.heap[q].entries[j].0 == name
  }

  /** A requirement in the object's security list names this scheme. */
  ghost predicate Requires(doc: Doc, n: nat, name: string) {
    exists s: nat, i: nat, q: nat, j: nat :: Required(doc, n, s, i, q, j, name)
  }

  ghost predicate Child(doc: Doc, n: nat, v: Value) {
    n in doc.heap && exists i :: 0 <= i < |doc.heap[n].entries| && doc.heap[n].entries[i].1 == v
  }

  lemma {:induction false} FollowAllIs(entries: Entries, step: Step)
    ensures step in FollowAll(entries)
       <==> exists i :: 0 <= i < |entries| && step == Follow(Some(entries[i].1), true)
  {
    if entries != [] {
      FollowAllIs(entries[1..], step);
      assert forall i :: 1 <= i < |entries| ==> entries[i] == entries[1..][i - 1];
    }
  }

  lemma {:induction false} SecureAllIs(entries: Entries, step: Step)
    ensures step in SecureAll(entries) <==> exists i :: 0 <= i < |entries| && step == Secure(entries[i].0)
  {
    if entries != [] {
      SecureAllIs(entries[1..], step);
      assert forall i :: 1 <= i < |entries| ==> entries[i] == entries[1..][i - 1];
    }
  }

  lemma {:induction false} VisitAllIs(entries: Entries, step: Step)
    ensures step in VisitAll(entries) <==> exists i :: 0 <= i < |entries| && step == Visit(entries[i].1)
  {
    if entries != [] {
      VisitAllIs(entries[1..], step);
      assert forall i :: 1 <= i < |entries| ==> entries[i] == entries[1..][i - 1];
    }
  }

  ghost predicate InRequirement(doc: Doc, requirements: Entries, i: int, name: string) {
    && 0 <= i < |requirements| && requirements[i].1.Ref? && requirements[i].1.node in doc.heap
    && Secure(name) in SecureAll(doc.heap[requirements[i].1.node].entries)
  }

  lemma {:induction false} RequirementsAre(doc: Doc, requirements: Entries, step: Step)
    ensures step in doc.RequirementSteps(requirements)
       <==> step.Secure? && exists i :: InRequirement(doc, requirements, i, step.name)
  {
    if requirements != [] {
      var first, rest := requirements[0].1, requirements[1..];
      RequirementsAre(doc, rest, step);
      if first.Ref? && first.node in doc.heap {
        SecureAllIs(doc.heap[first.node].entries, step);
      }
      if step in doc.RequirementSteps(requirements) {
        if step in doc.RequirementSteps(rest) {
          var i :| InRequirement(doc, rest, i, step.name);
          assert InRequirement(doc, requirements, i + 1, step.name);
        } else {
          assert InRequirement(doc, requirements, 0, step.name);
        }
      }
      if step.Secure? && exists i :: InRequirement(doc, requirements, i, step.name) {
        var i :| InRequirement(doc, requirements, i, step.name);
        assert i > 0 ==> InRequirement(doc, rest, i - 1, step.name);
      }
    }
  }

  lemma MappingIs(doc: Doc, n: nat, step: Step)
    ensures step in doc.MappingSteps(n) && step.Follow? && step.value.Some? && step.value.value.Text?
       <==> step.Follow? && step.byName && step.value.Some? && step.value.value.Text?
            && Refers(doc, n, step.value.value.text, true)
  {
    var d := doc.Property(n, "discriminator");
    if IsObject(doc.heap, d) {
      PropertyIs(doc, n, "discriminator", d.value);
      var m := doc.Property(d.value.node, "mapping");
      if IsObject(doc.heap, m) {
        PropertyIs(doc, d.value.node, "mapping", m.value);
        FollowAllIs(doc.heap[m.value.node].entries, step);
        if step in doc.MappingSteps(n) && step.value.value.Text? {
          var i :| 0 <= i < |doc.heap[m.value.node].entries|
            && step == Follow(Some(doc.heap[m.value.node].entries[i].1), true);
          assert Mapped(doc, n, d.value.node, m.value.node, i, step.value.value.text);
        }
      }
    }
    if step.Follow? && step.byName && step.value.Some? && step.value.value.Text?
      && Refers(doc, n, step.value.value.text, true)
    {
      var d': nat, m': nat, i: nat :| Mapped(doc, n, d', m', i, step.value.value.text);
      PropertyIs(doc, n, "discriminator", Ref(d'));
      PropertyIs(doc, d', "mapping", Ref(m'));
      FollowAllIs(doc.heap[m'].entries, step);
    }
  }

  lemma MappingOnlyFollows(doc: Doc, n: nat, step: Step)
    requires step in doc.MappingSteps(n)
    ensures step.Follow? && step.byName
  {
    var mapping := doc.Property(doc.Property(n, "discriminator").value.node, "mapping");
    FollowAllIs(doc.heap[mapping.value.node].entries, step);
  }

  lemma SecurityIs(doc: Doc, n: nat, step: Step)
    ensures step in doc.SecuritySteps(n) <==> step.Secure? && Requires(doc, n, step.name)
  {
    var security := doc.Property(n, "security");
    if IsObject(doc.heap, security) && doc.heap[security.value.node].isArray {
      var s := security.value.node;
      PropertyIs(doc, n, "security", security.value);
      RequirementsAre(doc, doc.heap[s].entries, step);
      if step in doc.SecuritySteps(n) {
        var i :| InRequirement(doc, doc.heap[s].entries, i, step.name);
        var q := doc.heap[s].entries[i].1.node;
        SecureAllIs(doc.heap[q].entries, step);
        var j :| 0 <= j < |doc.heap[q].entries| && step == Secure(doc.heap[q].entries[j].0);
        assert Required(doc, n, s, i, q, j, step.name);
      }
    }
    if step.Secure? && Requires(doc, n, step.name) {
      var s: nat, i: nat, q: nat, j: nat :| Required(doc, n, s, i, q, j, step.name);
      PropertyIs(doc, n, "security", Ref(s));
      SecureAllIs(doc.heap[q].entries, step);
      assert InRequirement(doc, doc.heap[s].entries, i, step.name);
    }
  }

  // ----- what is visible and needed -----

  /** The reference is broken: neither, in a mapping, the name of a schema, nor a pointer that resolves. */
  ghost predicate Broken(doc: Doc, text: string, byName: bool) {
    !(byName && SchemaNamed(doc, text)) && !exists parts, v :: Resolves(doc, text, parts, v)
  }

  /** The object holds a reference that is read as a pointer, and it resolves. */
  ghost predicate PointsTo(doc: Doc, n: nat, text: string, byName: bool, parts: seq<string>, v: Value) {
    Refers(doc, n, text, byName) && !(byName && SchemaNamed(doc, text)) && Resolves(doc, text, parts, v)
  }

  ghost predicate ChildrenVisible(doc: Doc, n: nat, visible: set<nat>) {
    forall m: nat :: Child(doc, n, Ref(m)) && m in doc.heap ==> m in visible
  }

  ghost predicate TargetsVisible(doc: Doc, n: nat, visible: set<nat>) {
    forall text, byName, parts, m: nat ::
      PointsTo(doc, n, text, byName, parts, Ref(m)) && m in doc.heap ==> m in visible
  }

  ghost predicate TargetsNeeded(doc: Doc, n: nat, needed: iset<Component>) {
    forall text, byName, parts, v, w ::
      PointsTo(doc, n, text, byName, parts, v) && parts[0] == "components" && Defined(doc, (parts[1], parts[2]), w)
      ==> (parts[1], parts[2]) in needed
  }

  ghost predicate NamesNeeded(doc: Doc, n: nat, needed: iset<Component>) {
    forall text, w ::
      Refers(doc, n, text, true) && Defined(doc, ("schemas", text), w) ==> ("schemas", text) in needed
  }

  ghost predicate SchemesNeeded(doc: Doc, n: nat, needed: iset<Component>) {
    forall name, w ::
      Requires(doc, n, name) && Defined(doc, ("securitySchemes", name), w) ==> ("securitySchemes", name) in needed
  }

  /** The object's children, and what its references point to, are visible; what they name is needed, if defined. */
  ghost predicate Served(doc: Doc, n: nat, visible: set<nat>, needed: iset<Component>) {
    && ChildrenVisible(doc, n, visible) && TargetsVisible(doc, n, visible)
    && TargetsNeeded(doc, n, needed) && NamesNeeded(doc, n, needed) && SchemesNeeded(doc, n, needed)
  }

  /** The start is visible, every visible object is served, and the definition of what is needed is visible. */
  ghost predicate Closed(doc: Doc, start: nat, visible: set<nat>, needed: iset<Component>) {
    && start in visible
    && (forall n :: n in visible && n in doc.heap ==> Served(doc, n, visible, needed))
    && (forall c, m: nat :: c in needed && Defined(doc, c, Ref(m)) && m in doc.heap ==> m in visible)
  }

  /** The least objects and components that are closed. */
  ghost predicate Least(doc: Doc, start: nat, visible: set<nat>, needed: iset<Component>) {
    && Closed(doc, start, visible, needed)
    && forall visible', needed' :: Closed(doc, start, visible', needed') ==> visible <= visible' && needed <= needed'
  }

  ghost predicate SomeBroken(doc: Doc, visible: set<nat>) {
    exists n, text, byName :: n in visible && Refers(doc, n, text, byName) && Broken(doc, text, byName)
  }

  lemma ResolvesOnce(doc: Doc, text: string, parts: seq<string>, v: Value, parts': seq<string>, v': Value)
    requires Resolves(doc, text, parts, v) && Resolves(doc, text, parts', v')
    ensures parts == parts' && v == v'
  {
    PartsOfIs(doc, text, parts);
    PartsOfIs(doc, text, parts');
    WalkIs(doc, Ref(doc.root), parts, v);
    WalkIs(doc, Ref(doc.root), parts, v');
  }

  lemma KeepingIs(doc: Doc, c: Component)
    ensures doc.Keeping(c) == if exists w :: Defined(doc, c, w) then Some(c) else None
  {
    var d := doc.Definition(c);
    if d.Some? {
      DefinitionIs(doc, c, d.value);
    }
    if w :| Defined(doc, c, w) {
      DefinitionIs(doc, c, w);
    }
  }

  /** A mapping that names a schema keeps it, if it is defined as an object's or an array's own property. */
  lemma NameFollows(doc: Doc, text: string)
    requires SchemaNamed(doc, text)
    ensures doc.Following(text, true)
      == Effect(if exists w :: Defined(doc, ("schemas", text), w) then Some(("schemas", text)) else None, None, false)
  {
    NamesSchemaIs(doc, text);
    KeepingIs(doc, ("schemas", text));
  }

  lemma NotNamed(doc: Doc, text: string, byName: bool)
    requires !(byName && SchemaNamed(doc, text))
    ensures doc.Following(text, byName) == doc.Following(text, false)
  {
    NamesSchemaIs(doc, text);
  }

  /** A pointer that resolves makes its target visible, and keeps the component it passes through. */
  lemma PointerFollows(doc: Doc, text: string, byName: bool, parts: seq<string>, v: Value)
    requires !(byName && SchemaNamed(doc, text)) && Resolves(doc, text, parts, v)
    ensures doc.Following(text, byName)
      == Effect(if parts[0] == "components" && exists w :: Defined(doc, (parts[1], parts[2]), w)
                then Some((parts[1], parts[2])) else None, Some(v), false)
  {
    NotNamed(doc, text, byName);
    PartsOfIs(doc, text, parts);
    WalkIs(doc, Ref(doc.root), parts, v);
    if parts[0] == "components" {
      KeepingIs(doc, (parts[1], parts[2]));
    }
  }

  /** A broken one is unresolved. */
  lemma BrokenFollows(doc: Doc, text: string, byName: bool)
    requires Broken(doc, text, byName)
    ensures doc.Following(text, byName) == NO_EFFECT.(bad := true)
  {
    NotNamed(doc, text, byName);
    var parts := PartsOf(text, doc.decode);
    if parts.Some? {
      PartsOfIs(doc, text, parts.value);
      var target := doc.Walk(Ref(doc.root), parts.value);
      if target.Some? {
        WalkIs(doc, Ref(doc.root), parts.value, target.value);
        assert !Resolves(doc, text, parts.value, target.value);
      }
    }
  }

  // ----- the steps of an object -----

  lemma FollowStep(doc: Doc, n: nat, text: string, byName: bool)
    requires n in doc.heap
    ensures Follow(Some(Text(text)), byName) in doc.Steps(n) <==> Refers(doc, n, text, byName)
  {
    var step := Follow(Some(Text(text)), byName);
    MappingIs(doc, n, step);
    PropertyIs(doc, n, "$ref", Text(text));
    PropertyIs(doc, n, "$dynamicRef", Text(text));
    SecurityIs(doc, n, step);
    VisitAllIs(doc.heap[n].entries, step);
    if step in doc.MappingSteps(n) {
      MappingOnlyFollows(doc, n, step);
    }
  }

  lemma SecureStep(doc: Doc, n: nat, name: string)
    requires n in doc.heap
    ensures Secure(name) in doc.Steps(n) <==> Requires(doc, n, name)
  {
    var step := Secure(name);
    SecurityIs(doc, n, step);
    VisitAllIs(doc.heap[n].entries, step);
    if step in doc.MappingSteps(n) {
      MappingOnlyFollows(doc, n, step);
    }
  }

  lemma VisitStep(doc: Doc, n: nat, v: Value)
    requires n in doc.heap
    ensures Visit(v) in doc.Steps(n) <==> Child(doc, n, v)
  {
    var step := Visit(v);
    SecurityIs(doc, n, step);
    VisitAllIs(doc.heap[n].entries, step);
    if step in doc.MappingSteps(n) {
      MappingOnlyFollows(doc, n, step);
    }
  }

  // ----- the worklist finds the least -----

  /** What the worklist visits and keeps. */
  ghost predicate Found(doc: Doc, start: nat, visible: set<nat>, needed: iset<Component>) {
    && (forall m :: m in visible <==> m in doc.heap && doc.Live(start, m))
    && (forall c :: c in needed <==> doc.Wanted(start, c))
  }

  lemma LedIsVisible(doc: Doc, start: nat, visible: set<nat>, needed: iset<Component>, n: nat, step: Step, m: nat)
    requires Found(doc, start, visible, needed) && n in visible && step in doc.Steps(n) && doc.Leads(step, m)
    requires m in doc.heap
    ensures m in visible
  {
    assert doc.Edge(n, m);
    ReachedStep(doc.Edges(), start, n, m);
  }

  lemma KeptIsNeeded(doc: Doc, start: nat, visible: set<nat>, needed: iset<Component>, n: nat, step: Step, c: Component)
    requires Found(doc, start, visible, needed) && n in visible && step in doc.Steps(n)
    requires doc.EffectOf(step).keeps == Some(c)
    ensures c in needed
  {
  }

  lemma VisibleIsServed(doc: Doc, start: nat, visible: set<nat>, needed: iset<Component>, n: nat)
    requires Found(doc, start, visible, needed) && n in visible
    ensures Served(doc, n, visible, needed)
  {
    forall m: nat | Child(doc, n, Ref(m)) && m in doc.heap ensures m in visible {
      VisitStep(doc, n, Ref(m));
      LedIsVisible(doc, start, visible, needed, n, Visit(Ref(m)), m);
    }
    forall text, byName, parts, m: nat | PointsTo(doc, n, text, byName, parts, Ref(m)) && m in doc.heap
      ensures m in visible
    {
      FollowStep(doc, n, text, byName);
      PointerFollows(doc, text, byName, parts, Ref(m));
      LedIsVisible(doc, start, visible, needed, n, Follow(Some(Text(text)), byName), m);
    }
    VisibleIsNeeded(doc, start, visible, needed, n);
  }

  lemma VisibleIsNeeded(doc: Doc, start: nat, visible: set<nat>, needed: iset<Component>, n: nat)
    requires Found(doc, start, visible, needed) && n in visible
    ensures TargetsNeeded(doc, n, needed) && NamesNeeded(doc, n, needed) && SchemesNeeded(doc, n, needed)
  {
    forall text, byName, parts, v, w |
      PointsTo(doc, n, text, byName, parts, v) && parts[0] == "components" && Defined(doc, (parts[1], parts[2]), w)
      ensures (parts[1], parts[2]) in needed
    {
      FollowStep(doc, n, text, byName);
      PointerFollows(doc, text, byName, parts, v);
      KeptIsNeeded(doc, start, visible, needed, n, Follow(Some(Text(text)), byName), (parts[1], parts[2]));
    }
    forall text, w | Refers(doc, n, text, true) && Defined(doc, ("schemas", text), w)
      ensures ("schemas", text) in needed
    {
      FollowStep(doc, n, text, true);
      assert SchemaNamed(doc, text);
      NameFollows(doc, text);
      KeptIsNeeded(doc, start, visible, needed, n, Follow(Some(Text(text)), true), ("schemas", text));
    }
    forall name, w | Requires(doc, n, name) && Defined(doc, ("securitySchemes", name), w)
      ensures ("securitySchemes", name) in needed
    {
      SecureStep(doc, n, name);
      KeepingIs(doc, ("securitySchemes", name));
      KeptIsNeeded(doc, start, visible, needed, n, Secure(name), ("securitySchemes", name));
    }
  }

  lemma MarksAreClosed(doc: Doc, start: nat, visible: set<nat>, needed: iset<Component>)
    requires start in doc.heap && Found(doc, start, visible, needed)
    ensures Closed(doc, start, visible, needed)
  {
    ReachedStart(doc.Edges(), start);
    forall n | n in visible ensures Served(doc, n, visible, needed) {
      VisibleIsServed(doc, start, visible, needed, n);
    }
    forall c, m: nat | c in needed && Defined(doc, c, Ref(m)) && m in doc.heap ensures m in visible {
      var n, step :| n in doc.heap && doc.Live(start, n) && step in doc.Steps(n)
        && doc.EffectOf(step).keeps == Some(c);
      DefinitionIs(doc, c, Ref(m));
      LedIsVisible(doc, start, visible, needed, n, step, m);
    }
  }

  /** What a step of a served object keeps is needed. */
  lemma ServedKeeps(doc: Doc, n: nat, step: Step, c: Component, visible: set<nat>, needed: iset<Component>)
    requires n in doc.heap && Served(doc, n, visible, needed) && step in doc.Steps(n)
    requires doc.EffectOf(step).keeps == Some(c)
    ensures c in needed
  {
    match step
    case Visit(_) =>
    case Secure(name) =>
      SecureStep(doc, n, name);
      KeepingIs(doc, c);
    case Follow(value, byName) =>
      var text := value.value.text;
      FollowStep(doc, n, text, byName);
      if byName && SchemaNamed(doc, text) {
        NameFollows(doc, text);
      } else if parts, v :| Resolves(doc, text, parts, v) {
        PointerFollows(doc, text, byName, parts, v);
        assert PointsTo(doc, n, text, byName, parts, v);
      } else {
        BrokenFollows(doc, text, byName);
      }
  }

  /** Where a step of a served object leads is visible. */
  lemma ServedLeads(doc: Doc, start: nat, n: nat, step: Step, m: nat, visible: set<nat>, needed: iset<Component>)
    requires Closed(doc, start, visible, needed) && n in visible && n in doc.heap && step in doc.Steps(n)
    requires doc.Leads(step, m) && m in doc.heap
    ensures m in visible
  {
    if doc.EffectOf(step).pushes == Some(Ref(m)) {
      match step
      case Visit(child) => VisitStep(doc, n, child);
      case Secure(_) =>
      case Follow(value, byName) => FollowLeads(doc, n, value.value.text, byName, m, visible, needed);
    } else {
      var c := doc.EffectOf(step).keeps.value;
      ServedKeeps(doc, n, step, c, visible, needed);
      DefinitionIs(doc, c, Ref(m));
    }
  }

  lemma FollowLeads(doc: Doc, n: nat, text: string, byName: bool, m: nat, visible: set<nat>, needed: iset<Component>)
    requires n in doc.heap && Served(doc, n, visible, needed) && m in doc.heap
    requires Follow(Some(Text(text)), byName) in doc.Steps(n) && doc.Following(text, byName).pushes == Some(Ref(m))
    ensures m in visible
  {
    FollowStep(doc, n, text, byName);
    if byName && SchemaNamed(doc, text) {
      NameFollows(doc, text);
    } else if parts, v :| Resolves(doc, text, parts, v) {
      PointerFollows(doc, text, byName, parts, v);
      assert PointsTo(doc, n, text, byName, parts, Ref(m));
    } else {
      BrokenFollows(doc, text, byName);
    }
  }

  lemma EdgeIsVisible(doc: Doc, start: nat, n: nat, m: nat, visible: set<nat>, needed: iset<Component>)
    requires Closed(doc, start, visible, needed) && n in visible && doc.Edge(n, m)
    ensures m in visible
  {
    var step :| step in doc.Steps(n) && doc.Leads(step, m);
    ServedLeads(doc, start, n, step, m, visible, needed);
  }

  lemma LiveIsVisible(doc: Doc, start: nat, m: nat, visible: set<nat>, needed: iset<Component>)
    requires Closed(doc, start, visible, needed) && doc.Live(start, m)
    ensures m in visible
  {
    forall n, t | n in visible && (n, t) in doc.Edges() ensures t in visible {
      EdgeIsVisible(doc, start, n, t, visible, needed);
    }
    ReachedIsLeast(doc.Edges(), start, m, visible);
  }

  /** What the worklist finds is the least that is closed, and it meets an unresolved reference if and only if a visible
      object holds a broken one. */
  lemma {:induction false} MarksAreLeastClosed(doc: Doc, start: nat, visible: set<nat>, needed: iset<Component>)
    requires start in doc.heap && Found(doc, start, visible, needed)
    ensures Least(doc, start, visible, needed)
    ensures doc.Unresolved(start) <==> SomeBroken(doc, visible)
  {
    MarksAreClosed(doc, start, visible, needed);
    forall visible', needed' | Closed(doc, start, visible', needed')
      ensures visible <= visible' && needed <= needed'
    {
      forall m | m in visible ensures m in visible' {
        LiveIsVisible(doc, start, m, visible', needed');
      }
      forall c | c in needed ensures c in needed' {
        var n, step :| n in doc.heap && doc.Live(start, n) && step in doc.Steps(n)
          && doc.EffectOf(step).keeps == Some(c);
        ServedKeeps(doc, n, step, c, visible', needed');
      }
    }
    BrokenIs(doc, start, visible, needed);
  }

  lemma BrokenIs(doc: Doc, start: nat, visible: set<nat>, needed: iset<Component>)
    requires Found(doc, start, visible, needed)
    ensures doc.Unresolved(start) <==> SomeBroken(doc, visible)
  {
    if doc.Unresolved(start) {
      var n, step :| n in doc.heap && doc.Live(start, n) && step in doc.Steps(n) && doc.EffectOf(step).bad;
      var text := step.value.value.text;
      FollowStep(doc, n, text, step.byName);
      if !Broken(doc, text, step.byName) {
        NotBroken(doc, text, step.byName);
      }
    }
    if SomeBroken(doc, visible) {
      var n, text, byName :| n in visible && Refers(doc, n, text, byName) && Broken(doc, text, byName);
      FollowStep(doc, n, text, byName);
      BrokenFollows(doc, text, byName);
      assert doc.EffectOf(Follow(Some(Text(text)), byName)).bad;
    }
  }

  lemma NotBroken(doc: Doc, text: string, byName: bool)
    requires !Broken(doc, text, byName)
    ensures !doc.Following(text, byName).bad
  {
    if byName && SchemaNamed(doc, text) {
      NameFollows(doc, text);
    } else {
      var parts, v :| Resolves(doc, text, parts, v);
      PointerFollows(doc, text, byName, parts, v);
    }
  }
}
