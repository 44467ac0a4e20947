/** What pruning leaves behind: on a document parsed from JSON, a tree, the kept part is closed.

  `KeptPartIntact` is the main result: every live object takes exactly the same steps with the same
  effects after deletion as before, so each of its references still resolves to the same target. */
module DocsResolve {
  import opened Seqs
  import opened DocsPrune

  ghost predicate Slot(h: Heap, n: nat, key: string, t: nat) {
    n in h && (key, Ref(t)) in h[n].entries
  }

  /** Every object sits in exactly one place, the whole schema in none. */
  ghost predicate Tree(h: Heap, root: nat) {
    && root in h
    && (forall n, key, t :: Slot(h, n, key, t) ==> t in h && t != root)
    && (forall n1, k1, n2, k2, t :: Slot(h, n1, k1, t) && Slot(h, n2, k2, t) ==> n1 == n2 && k1 == k2)
  }

  lemma FindSlot(h: Heap, n: nat, key: string, t: nat)
    requires n in h && Find(h[n].entries, key) == Some(Ref(t))
    ensures Slot(h, n, key, t)
  {
  }

  /** The definitions object of one of the prunable groups. */
  ghost predicate Listed(h: Heap, comp: nat, group: string, d: nat) {
    group in GROUPS && Group(h, comp, group) == Some(Ref(d)) && d in h && !h[d].isArray
  }

  /** Objects pruning does not touch and no live chain avoids. */
  ghost predicate Calm(h: Heap, root: nat, comp: nat, n: nat) {
    n in h && n != root && n != comp && forall group :: !Listed(h, comp, group, n)
  }

  lemma ChildIsCalm(h: Heap, root: nat, comp: nat, n: nat, key: string, t: nat)
    requires Tree(h, root) && Slot(h, root, "components", comp)
    requires Slot(h, n, key, t) && n != comp && !(n == root && key == "components")
    ensures Calm(h, root, comp, t)
  {
    forall group
      ensures !Listed(h, comp, group, t)
    {
      if Listed(h, comp, group, t) {
        FindSlot(h, comp, group, t);
      }
    }
  }

  // ----- the heap after deletion -----

  ghost predicate Apart(h: Heap, comp: nat) {
    && comp in h
    && (forall group :: Group(h, comp, group) != Some(Ref(comp)))
    && (forall g1, g2 ::
          Group(h, comp, g1).Some? && Group(h, comp, g1).value.Ref? && Group(h, comp, g1) == Group(h, comp, g2) ==>
            g1 == g2)
  }

  lemma TreeApart(h: Heap, root: nat, comp: nat)
    requires Tree(h, root) && Slot(h, root, "components", comp)
    ensures Apart(h, comp)
  {
    forall group
      ensures Group(h, comp, group) != Some(Ref(comp))
    {
      if Group(h, comp, group) == Some(Ref(comp)) {
        FindSlot(h, comp, group, comp);
      }
    }
    forall g1, g2 | Group(h, comp, g1).Some? && Group(h, comp, g1).value.Ref?
      && Group(h, comp, g1) == Group(h, comp, g2)
      ensures g1 == g2
    {
      FindSlot(h, comp, g1, Group(h, comp, g1).value.node);
      FindSlot(h, comp, g2, Group(h, comp, g1).value.node);
    }
  }

  function Left(h: Heap, comp: nat, group: string, kept: set<Component>): Entries {
    var v := Group(h, comp, group);
    if IsRecord(h, v) then Drop(h[v.value.node].entries, Unkept(h[v.value.node].entries, group, kept)) else []
  }

  /** How `later` differs from `h` once the given groups are pruned. */
  ghost predicate Pruned(h: Heap, later: Heap, comp: nat, groups: seq<string>, kept: set<Component>) {
    && later.Keys == h.Keys
    && (forall n :: n in h ==> later[n].isArray == h[n].isArray)
    && (forall n ::
          n in h && n != comp && (forall g :: g in groups ==> Group(h, comp, g) != Some(Ref(n)) || h[n].isArray) ==>
            later[n] == h[n])
    && (forall g :: g in groups && IsRecord(h, Group(h, comp, g)) ==>
          later[Group(h, comp, g).value.node].entries == Left(h, comp, g, kept))
    && (forall key :: Group(later, comp, key)
          == if key in groups && IsRecord(h, Group(h, comp, key)) && Left(h, comp, key, kept) == [] then None
             else Group(h, comp, key))
  }

  lemma GroupPruned(h: Heap, comp: nat, g: string, kept: set<Component>, d: nat)
    requires comp in h && Group(h, comp, g) == Some(Ref(d)) && d in h && !h[d].isArray && d != comp
    ensures var later := PruneGroup(h, comp, g, kept);
      && later.Keys == h.Keys && later[comp].isArray == h[comp].isArray
      && (forall n :: n in h && n != comp && n != d ==> later[n] == h[n])
      && later[d] == Node(false, Left(h, comp, g, kept))
      && (forall key :: Group(later, comp, key)
            == if key == g && Left(h, comp, g, kept) == [] then None else Group(h, comp, key))
  {
    forall key
      ensures Find(Drop(h[comp].entries, {g}), key) == if key == g then None else Group(h, comp, key)
    {
      FindDropped(h[comp].entries, {g}, key);
    }
  }

  lemma PrunedStep(h: Heap, middle: Heap, comp: nat, front: seq<string>, g: string, kept: set<Component>)
    requires Apart(h, comp) && Pruned(h, middle, comp, front, kept) && g !in front
    ensures Pruned(h, PruneGroup(middle, comp, g, kept), comp, front + [g], kept)
  {
    var v := Group(h, comp, g);
    assert forall x :: x in front + [g] <==> x in front || x == g;
    assert Group(middle, comp, g) == v;
    if IsRecord(h, v) {
      var d := v.value.node;
      assert middle[d] == h[d];
      assert Left(middle, comp, g, kept) == Left(h, comp, g, kept);
      GroupPruned(middle, comp, g, kept, d);
    }
  }

  lemma {:induction false} PruneGroupsShape(h: Heap, comp: nat, groups: seq<string>, kept: set<Component>)
    requires Apart(h, comp)
    requires forall i, j :: 0 <= i < j < |groups| ==> groups[i] != groups[j]
    ensures Pruned(h, PruneGroups(h, comp, groups, kept), comp, groups, kept)
  {
    if groups != [] {
      var front, g := groups[..|groups| - 1], groups[|groups| - 1];
      PruneGroupsShape(h, comp, front, kept);
      PrunedStep(h, PruneGroups(h, comp, front, kept), comp, front, g, kept);
      assert groups == front + [g];
      PruneGroupsSnoc(h, comp, front, g, kept);
    } else {
      NothingPruned(h, comp, kept);
    }
  }

  lemma NothingPruned(h: Heap, comp: nat, kept: set<Component>)
    requires Apart(h, comp)
    ensures PruneGroups(h, comp, [], kept) == h && Pruned(h, h, comp, [], kept)
  {
  }

  /** What remains of a group is exactly its kept names: nothing unwanted stays, nothing wanted goes. */
  lemma {:induction false} LeftIsKept(entries: Entries, group: string, kept: set<Component>, name: string)
    ensures Find(Drop(entries, Unkept(entries, group, kept)), name)
         == if (group, name) in kept then Find(entries, name) else None
  {
    FindDropped(entries, Unkept(entries, group, kept), name);
    FindKey(entries, name);
    if name in Keys(entries) {
      var i :| 0 <= i < |entries| && entries[i].0 == name;
    }
  }

  // ----- before and after, side by side -----

  lemma {:induction false} InDropped(entries: Entries, keys: set<string>, e: (string, Value))
    requires e in Drop(entries, keys)
    ensures e in entries && e.0 !in keys
  {
    if entries[0].0 in keys {
      assert Drop(entries, keys) == Drop(entries[1..], keys);
      InDropped(entries[1..], keys, e);
    } else if e != entries[0] {
      assert Drop(entries, keys)[1..] == Drop(entries[1..], keys);
      InDropped(entries[1..], keys, e);
    }
  }

  lemma {:induction false} VisitedIsValue(entries: Entries, child: Value)
    requires Visit(child) in VisitAll(entries)
    ensures exists key :: (key, child) in entries
  {
    if entries[0].1 != child {
      assert VisitAll(entries)[1..] == VisitAll(entries[1..]);
      VisitedIsValue(entries[1..], child);
      var key :| (key, child) in entries[1..];
      assert (key, child) in entries;
    } else {
      assert (entries[0].0, child) in entries;
    }
  }

  lemma {:induction false} OnlyFollows(entries: Entries, step: Step)
    ensures step in FollowAll(entries) ==> step.Follow?
    ensures step in SecureAll(entries) ==> step.Secure?
  {
    if entries != [] {
      OnlyFollows(entries[1..], step);
    }
  }

  lemma {:induction false} OnlySecures(doc: Doc, requirements: Entries, step: Step)
    requires step in doc.RequirementSteps(requirements)
    ensures step.Secure?
  {
    var v := requirements[0].1;
    if IsObject(doc.heap, Some(v)) && step in SecureAll(doc.heap[v.node].entries) {
      OnlyFollows(doc.heap[v.node].entries, step);
    } else {
      OnlySecures(doc, requirements[1..], step);
    }
  }

  /** A child step comes from an own property. */
  lemma ChildStep(doc: Doc, n: nat, child: Value)
    requires n in doc.heap && Visit(child) in doc.Steps(n)
    ensures exists key :: (key, child) in doc.heap[n].entries
  {
    var step := Visit(child);
    if step in doc.MappingSteps(n) {
      var discriminator := doc.Property(n, "discriminator");
      var mapping := doc.Property(discriminator.value.node, "mapping");
      OnlyFollows(doc.heap[mapping.value.node].entries, step);
    }
    if step in doc.SecuritySteps(n) {
      OnlySecures(doc, doc.heap[doc.Property(n, "security").value.node].entries, step);
    }
    VisitedIsValue(doc.heap[n].entries, child);
  }

  /** A document before and after deletion, with the view the worklist started from. */
  datatype Situation = Situation(h: Heap, later: Heap, root: nat, comp: nat, view: nat,
    decode: string -> Option<string>, kept: set<Component>) {

    function Shown(): Node
      requires root in h
    {
      Node(false, Drop(h[root].entries, {"components"}))
    }

    function Old(): Doc
      requires root in h
    {
      Doc(h[view := Shown()], root, comp, decode)
    }

    function New(): Doc
      requires root in h
    {
      Doc(later[view := Shown()], root, comp, decode)
    }

    ghost predicate Deleted() {
      && Tree(h, root) && view !in h && comp in h && !h[comp].isArray
      && Find(h[root].entries, "components") == Some(Ref(comp))
      && Pruned(h, later, comp, GROUPS, kept)
    }

    lemma Basics()
      requires Deleted()
      ensures Slot(h, root, "components", comp) && Apart(h, comp) && comp != root && view != root && view != comp
    {
      FindSlot(h, root, "components", comp);
      TreeApart(h, root, comp);
    }

    lemma CalmSame(n: nat)
      requires Deleted() && Calm(h, root, comp, n)
      ensures Old().heap[n] == h[n] == New().heap[n]
    {
      forall g | g in GROUPS
        ensures Group(h, comp, g) != Some(Ref(n)) || h[n].isArray
      {
        assert !Listed(h, comp, g, n);
      }
    }

    lemma RootSame()
      requires Deleted()
      ensures Old().heap[root] == h[root] == New().heap[root]
    {
      Basics();
      forall g | g in GROUPS
        ensures Group(h, comp, g) != Some(Ref(root))
      {
        if Group(h, comp, g) == Some(Ref(root)) {
          FindSlot(h, comp, g, root);
        }
      }
    }

    ghost predicate CalmValue(v: Value) {
      v.Ref? ==> Calm(h, root, comp, v.node)
    }

    /** Own properties of a calm object are calm. */
    lemma OwnCalm(n: nat, key: string)
      requires Deleted() && n in h && n != comp && !(n == root && key == "components")
      ensures Own(h[n], key).Some? ==> CalmValue(Own(h[n], key).value)
    {
      Basics();
      var v := Own(h[n], key);
      if v.Some? && v.value.Ref? {
        FindSlot(h, n, key, v.value.node);
        ChildIsCalm(h, root, comp, n, key, v.value.node);
      }
    }

    lemma {:induction false} WalkCalm(v: Value, parts: seq<string>)
      requires Deleted() && CalmValue(v)
      ensures New().Walk(v, parts) == Old().Walk(v, parts)
      ensures Old().Walk(v, parts).Some? ==> CalmValue(Old().Walk(v, parts).value)
      decreases |parts|
    {
      if parts != [] && v.Ref? {
        CalmSame(v.node);
        OwnCalm(v.node, parts[0]);
        var next := Own(h[v.node], parts[0]);
        if next.Some? {
          WalkCalm(next.value, parts[1..]);
        }
      }
    }

    lemma GroupsOf(g: string)
      requires Deleted()
      ensures Old().Property(comp, g) == Group(h, comp, g) && New().Property(comp, g) == Group(later, comp, g)
      ensures forall d :: Group(h, comp, g) == Some(Ref(d)) ==>
        d in h && d != comp && d != root && d != view && Slot(h, comp, g, d)
    {
      Basics();
      if Group(h, comp, g).Some? && Group(h, comp, g).value.Ref? {
        FindSlot(h, comp, g, Group(h, comp, g).value.node);
      }
    }

    /** A definition of a kept component is untouched, and no definition appears that was not there. */
    lemma DefinitionSame(c: Component)
      requires Deleted()
      ensures c in kept || Old().Definition(c) == None ==> New().Definition(c) == Old().Definition(c)
      ensures c in kept && Old().Definition(c).Some? ==> Group(later, comp, c.0) == Group(h, comp, c.0)
    {
      Basics();
      GroupsOf(c.0);
      var v := Group(h, comp, c.0);
      if v.Some? && v.value.Ref? {
        DefinitionsNode(c, v.value.node);
      }
    }

    lemma DefinitionsNode(c: Component, d: nat)
      requires Deleted() && Group(h, comp, c.0) == Some(Ref(d)) && d in h
      ensures Own(later[d], c.1) == if c.0 in GROUPS && !h[d].isArray && c !in kept then None else Own(h[d], c.1)
      ensures Group(later, comp, c.0) == Group(h, comp, c.0)
        || (c.0 in GROUPS && !h[d].isArray && later[d].entries == [])
    {
      Basics();
      if c.0 in GROUPS && !h[d].isArray {
        assert later[d].entries == Left(h, comp, c.0, kept);
        LeftIsKept(h[d].entries, c.0, kept, c.1);
      } else {
        assert later[d] == h[d];
      }
    }

    lemma DefinitionCalm(c: Component)
      requires Deleted() && Old().Definition(c).Some?
      ensures CalmValue(Old().Definition(c).value)
    {
      GroupsOf(c.0);
      OwnCalm(Group(h, comp, c.0).value.node, c.1);
    }

    lemma WalkOutside(parts: seq<string>)
      requires Deleted() && parts != [] && parts[0] != "components"
      ensures New().Walk(Ref(root), parts) == Old().Walk(Ref(root), parts)
      ensures Old().Walk(Ref(root), parts).Some? ==> CalmValue(Old().Walk(Ref(root), parts).value)
    {
      Basics();
      RootSame();
      OwnCalm(root, parts[0]);
      var next := Own(h[root], parts[0]);
      if next.Some? {
        WalkCalm(next.value, parts[1..]);
      }
    }

    /** A pointer into a component passes through that component's definition. */
    lemma WalkInside(parts: seq<string>)
      requires Deleted() && |parts| >= 3 && parts[0] == "components" && Old().Walk(Ref(root), parts).Some?
      ensures Old().Definition((parts[1], parts[2])).Some?
      ensures Old().Walk(Ref(root), parts) == Old().Walk(Old().Definition((parts[1], parts[2])).value, parts[3..])
      ensures CalmValue(Old().Walk(Ref(root), parts).value)
      ensures (parts[1], parts[2]) in kept ==> New().Walk(Ref(root), parts) == Old().Walk(Ref(root), parts)
    {
      Basics();
      RootSame();
      var c := (parts[1], parts[2]);
      GroupsOf(c.0);
      assert parts[1..][0] == c.0 && parts[1..][1..][0] == c.1 && parts[1..][1..][1..] == parts[3..];
      WalkThree(Old(), parts);
      DefinitionCalm(c);
      DefinitionSame(c);
      WalkCalm(Old().Definition(c).value, parts[3..]);
      if c in kept {
        WalkThree(New(), parts);
      }
    }

    /** Unfolding the first three steps of a walk through the components. */
    lemma WalkThree(doc: Doc, parts: seq<string>)
      requires root in h && |parts| >= 3 && parts[0] == "components" && doc.root == root && doc.comp == comp
      requires root in doc.heap && comp in doc.heap && !doc.heap[comp].isArray
        && Own(doc.heap[root], "components") == Some(Ref(comp))
      ensures doc.Definition((parts[1], parts[2])).Some? ==>
        doc.Walk(Ref(root), parts) == doc.Walk(doc.Definition((parts[1], parts[2])).value, parts[3..])
      ensures doc.Walk(Ref(root), parts).Some? ==> doc.Definition((parts[1], parts[2])).Some?
    {
      var rest := parts[1..];
      assert doc.Walk(Ref(root), parts) == doc.Walk(Ref(comp), rest);
      var d := Own(doc.heap[comp], rest[0]);
      if d.Some? {
        assert doc.Walk(Ref(root), parts) == doc.Walk(d.value, rest[1..]);
        assert rest[1..][1..] == parts[3..];
      }
    }

    /** What a live object's step keeps is kept, and none of its references is unresolved. */
    ghost predicate Granted(step: Step)
      requires root in h
    {
      var e := Old().EffectOf(step);
      !e.bad && (e.keeps.Some? ==> e.keeps.value in kept)
    }

    lemma NamesSame(name: string)
      requires Deleted() && (Old().Definition(("schemas", name)).Some? ==> ("schemas", name) in kept)
      ensures New().NamesSchema(name) == Old().NamesSchema(name)
    {
      var c := ("schemas", name);
      Basics();
      GroupsOf("schemas");
      DefinitionSame(c);
      var v := Group(h, comp, "schemas");
      if v.Some? && !v.value.Ref? {
        assert !IsRecord(h, v);
      }
    }

    /** A reference granted before deletion has the same effect after it. */
    lemma EffectSame(step: Step)
      requires Deleted() && Granted(step)
      ensures New().EffectOf(step) == Old().EffectOf(step) && New().DefinitionFor(step) == Old().DefinitionFor(step)
    {
      match step
      case Visit(child) =>
      case Secure(name) => DefinitionSame(("securitySchemes", name));
      case Follow(value, byName) =>
        if value.Some? && value.value.Text? {
          FollowingSame(value.value.text, byName);
        }
    }

    lemma FollowingSame(text: string, byName: bool)
      requires Deleted() && Granted(Follow(Some(Text(text)), byName))
      ensures var step := Follow(Some(Text(text)), byName);
        New().EffectOf(step) == Old().EffectOf(step) && New().DefinitionFor(step) == Old().DefinitionFor(step)
    {
      Basics();
      if byName {
        NamesSchemaGranted(text);
        NamesSame(text);
      }
      if byName && Old().NamesSchema(text) {
        DefinitionSame(("schemas", text));
      } else {
        var parts := PartsOf(text, decode).value;
        if parts[0] != "components" {
          WalkOutside(parts);
        } else {
          WalkInside(parts);
          DefinitionSame((parts[1], parts[2]));
        }
      }
    }

    lemma NamesSchemaGranted(text: string)
      requires Deleted() && Granted(Follow(Some(Text(text)), true))
      ensures Old().Definition(("schemas", text)).Some? ==> ("schemas", text) in kept
    {
      GroupsOf("schemas");
      assert Old().Definition(("schemas", text)).Some? ==> Old().NamesSchema(text);
    }

    /** Whatever a step of any object leads to is calm, provided its child steps do. */
    lemma TargetCalm(step: Step, t: nat)
      requires Deleted() && t in Old().heap && Old().Leads(step, t) && !step.Visit?
      ensures Calm(h, root, comp, t)
    {
      Basics();
      if Old().DefinitionFor(step) == Some(Ref(t)) {
        DefinitionCalm(Old().EffectOf(step).keeps.value);
      } else {
        var parts := PartsOf(step.value.value.text, decode).value;
        if parts[0] != "components" {
          WalkOutside(parts);
        } else {
          WalkInside(parts);
        }
      }
    }

    lemma ChildCalm(n: nat, key: string, t: nat)
      requires Deleted() && (n == view || Calm(h, root, comp, n)) && (key, Ref(t)) in Old().heap[n].entries
      ensures Calm(h, root, comp, t)
    {
      Basics();
      if n == view {
        InDropped(h[root].entries, {"components"}, (key, Ref(t)));
        assert Slot(h, root, key, t);
        ChildIsCalm(h, root, comp, root, key, t);
      } else {
        assert Slot(h, n, key, t);
        ChildIsCalm(h, root, comp, n, key, t);
      }
    }

    /** The chain from the view never reaches the schema object, the components or their groups. */
    lemma LiveIsCalm(n: nat)
      requires Deleted() && n in Old().heap && Old().Live(view, n)
      ensures n == view || Calm(h, root, comp, n)
    {
      var closed := set m | m in Old().heap && (m == view || Calm(h, root, comp, m));
      forall m, t | m in closed && (m, t) in Old().Edges()
        ensures t in closed
      {
        EdgeCalm(m, t);
      }
      ReachedIsLeast(Old().Edges(), view, n, closed);
    }

    lemma EdgeCalm(m: nat, t: nat)
      requires Deleted() && (m == view || Calm(h, root, comp, m)) && Old().Edge(m, t)
      ensures Calm(h, root, comp, t)
    {
      var step :| step in Old().Steps(m) && Old().Leads(step, t);
      if step.Visit? {
        ChildStep(Old(), m, step.child);
        var key :| (key, step.child) in Old().heap[m].entries;
        ChildCalm(m, key, t);
      } else {
        TargetCalm(step, t);
      }
    }

    /** The objects a live object's own properties name are the same before and after. */
    lemma PropertySame(n: nat, key: string)
      requires Deleted() && (n == view || Calm(h, root, comp, n))
      ensures n in Old().heap && Old().heap[n] == New().heap[n]
      ensures New().Property(n, key) == Old().Property(n, key)
      ensures IsObject(Old().heap, Old().Property(n, key)) ==> Calm(h, root, comp, Old().Property(n, key).value.node)
      ensures IsObject(New().heap, Old().Property(n, key)) == IsObject(Old().heap, Old().Property(n, key))
    {
      Basics();
      if n != view {
        CalmSame(n);
      }
      var v := Old().Property(n, key);
      if v.Some? && v.value.Ref? {
        ChildCalm(n, key, v.value.node);
      }
    }

    lemma {:induction false} RequirementsSame(s: nat, requirements: Entries)
      requires Deleted() && Calm(h, root, comp, s) && forall e :: e in requirements ==> e in h[s].entries
      ensures New().RequirementSteps(requirements) == Old().RequirementSteps(requirements)
    {
      if requirements != [] {
        RequirementsSame(s, requirements[1..]);
        assert requirements[0] in h[s].entries;
        if requirements[0].1.Ref? {
          Basics();
          CalmSame(s);
          ChildCalm(s, requirements[0].0, requirements[0].1.node);
          CalmSame(requirements[0].1.node);
        }
      }
    }

    lemma StepsSame(n: nat)
      requires Deleted() && (n == view || Calm(h, root, comp, n))
      ensures n in Old().heap && n in New().heap && New().Steps(n) == Old().Steps(n)
    {
      PropertySame(n, "$ref");
      PropertySame(n, "$dynamicRef");
      MappingSame(n);
      SecuritySame(n);
    }

    lemma MappingSame(n: nat)
      requires Deleted() && (n == view || Calm(h, root, comp, n))
      ensures New().MappingSteps(n) == Old().MappingSteps(n)
    {
      PropertySame(n, "discriminator");
      var discriminator := Old().Property(n, "discriminator");
      if IsObject(Old().heap, discriminator) {
        var d := discriminator.value.node;
        PropertySame(d, "mapping");
        var mapping := Old().Property(d, "mapping");
        if IsObject(Old().heap, mapping) {
          CalmSame(mapping.value.node);
        }
      }
    }

    lemma SecuritySame(n: nat)
      requires Deleted() && (n == view || Calm(h, root, comp, n))
      ensures New().SecuritySteps(n) == Old().SecuritySteps(n)
    {
      PropertySame(n, "security");
      var security := Old().Property(n, "security");
      if IsObject(Old().heap, security) {
        CalmSame(security.value.node);
        RequirementsSame(security.value.node, h[security.value.node].entries);
      }
    }

    /** The marks were those of a run that met no unresolved reference. */
    ghost predicate Marked()
      requires root in h
    {
      !Old().Unresolved(view) && forall c :: c in kept <==> Old().Wanted(view, c)
    }

    /** Every live object is unchanged and takes the same steps to the same targets after deletion:
        each of its references, mappings and security schemes resolves exactly as before. */
    lemma {:induction false} KeptPartIntact(n: nat)
      requires Deleted() && Marked() && n in Old().heap && Old().Live(view, n)
      ensures n in New().heap && New().heap[n] == Old().heap[n] && New().Steps(n) == Old().Steps(n)
      ensures forall step :: step in Old().Steps(n) ==>
        && New().EffectOf(step) == Old().EffectOf(step) && !New().EffectOf(step).bad
        && New().DefinitionFor(step) == Old().DefinitionFor(step)
    {
      LiveIsCalm(n);
      PropertySame(n, "$ref");
      StepsSame(n);
      forall step | step in Old().Steps(n)
        ensures New().EffectOf(step) == Old().EffectOf(step) && !New().EffectOf(step).bad
        ensures New().DefinitionFor(step) == Old().DefinitionFor(step)
      {
        assert Granted(step);
        EffectSame(step);
      }
    }

    lemma EdgeSame(n: nat, t: nat)
      requires Deleted() && Marked() && Old().Live(view, n)
      ensures (n, t) in Old().Edges() <==> (n, t) in New().Edges()
    {
      if n in Old().heap {
        KeptPartIntact(n);
        if (n, t) in Old().Edges() {
          var step :| step in Old().Steps(n) && Old().Leads(step, t);
          assert New().Leads(step, t);
        }
        if (n, t) in New().Edges() {
          var step :| step in New().Steps(n) && New().Leads(step, t);
          assert Old().Leads(step, t);
        }
      }
    }

    /** Deletion leaves the live part exactly as it was. */
    lemma LiveSame(n: nat)
      requires Deleted() && Marked()
      ensures New().Live(view, n) <==> Old().Live(view, n)
    {
      forall m: nat, t: nat | Reached(Old().Edges(), view, m)
        ensures (m, t) in Old().Edges() <==> (m, t) in New().Edges()
      {
        EdgeSame(m, t);
      }
      forall length: nat
        ensures ReachedIn(Old().Edges(), view, length, n) <==> ReachedIn(New().Edges(), view, length, n)
      {
        SameEdgesReach(Old().Edges(), New().Edges(), view, length, n);
      }
    }

    /** Pruning again would keep the same components, and still find every reference resolved. */
    lemma {:induction false} StillWanted(c: Component)
      requires Deleted() && Marked()
      ensures !New().Unresolved(view)
      ensures New().Wanted(view, c) <==> c in kept
    {
      forall n | n in New().heap
        ensures New().Live(view, n) <==> Old().Live(view, n)
      {
        LiveSame(n);
      }
      forall n | n in Old().heap && Old().Live(view, n)
        ensures New().Steps(n) == Old().Steps(n)
        ensures forall step :: step in Old().Steps(n) ==>
          New().EffectOf(step) == Old().EffectOf(step) && !New().EffectOf(step).bad
      {
        KeptPartIntact(n);
      }
      if Old().Wanted(view, c) {
        var n, step :| n in Old().heap && Old().Live(view, n) && step in Old().Steps(n)
          && Old().EffectOf(step).keeps == Some(c);
        assert New().EffectOf(step).keeps == Some(c);
      }
    }

    /** After deletion a prunable group holds exactly the kept names it held before, each with its old definition. */
    lemma OnlyKeptRemain(group: string, name: string)
      requires Deleted() && group in GROUPS && IsRecord(h, Group(h, comp, group))
      ensures New().Definition((group, name)) == if (group, name) in kept then Old().Definition((group, name)) else None
    {
      Basics();
      GroupsOf(group);
      DefinitionSame((group, name));
      var d := Group(h, comp, group).value.node;
      LeftIsKept(h[d].entries, group, kept, name);
    }
  }

  lemma GroupsDiffer(i: nat, j: nat)
    requires i < j < |GROUPS|
    ensures GROUPS[i] != GROUPS[j]
  {
    assert "schemas"[0] == 's' && "securitySchemes"[1] == 'e' && "schemas"[1] == 'c';
    assert "responses"[2] == 's' && "requestBodies"[2] == 'q';
    assert "parameters"[2] == 'r' && "pathItems"[2] == 't';
  }

  /** What `Document.Prune` computes on a JSON tree is the situation the lemmas above speak of. */
  lemma PruneIsDeletion(h: Heap, root: nat, comp: nat, view: nat, decode: string -> Option<string>,
      kept: set<Component>)
    requires Tree(h, root) && view !in h && comp in h && !h[comp].isArray
    requires Find(h[root].entries, "components") == Some(Ref(comp))
    ensures Situation(h, PruneGroups(h, comp, GROUPS, kept), root, comp, view, decode, kept).Deleted()
  {
    FindSlot(h, root, "components", comp);
    TreeApart(h, root, comp);
    forall i, j | 0 <= i < j < |GROUPS|
      ensures GROUPS[i] != GROUPS[j]
    {
      GroupsDiffer(i, j);
    }
    PruneGroupsShape(h, comp, GROUPS, kept);
  }

  /** Every live object is untouched, and each of its steps resolves, to the same object and the same definition as
      before. */
  ghost predicate StillResolves(before: Doc, after: Doc, view: nat) {
    forall n :: n in before.heap && before.Live(view, n) ==>
      && n in after.heap && after.heap[n] == before.heap[n] && after.Steps(n) == before.Steps(n)
      && forall step :: step in before.Steps(n) ==>
        && after.EffectOf(step) == before.EffectOf(step) && !after.EffectOf(step).bad
        && after.DefinitionFor(step) == before.DefinitionFor(step)
  }

  /** A prunable group is left with exactly the names something live asks for, each with its old definition. */
  ghost predicate OnlyWantedRemain(before: Doc, after: Doc, view: nat) {
    forall group, name :: group in GROUPS && IsRecord(before.heap, Group(before.heap, before.comp, group)) ==>
      after.Definition((group, name))
        == if before.Wanted(view, (group, name)) then before.Definition((group, name)) else None
  }

  lemma PrunedResolves(x: Situation)
    requires x.Deleted() && x.Marked()
    ensures StillResolves(x.Old(), x.New(), x.view) && OnlyWantedRemain(x.Old(), x.New(), x.view)
    ensures !x.New().Unresolved(x.view)
  {
    forall n | n in x.Old().heap && x.Old().Live(x.view, n)
      ensures n in x.New().heap && x.New().heap[n] == x.Old().heap[n] && x.New().Steps(n) == x.Old().Steps(n)
      ensures forall step :: step in x.Old().Steps(n) ==>
        && x.New().EffectOf(step) == x.Old().EffectOf(step) && !x.New().EffectOf(step).bad
        && x.New().DefinitionFor(step) == x.Old().DefinitionFor(step)
    {
      x.KeptPartIntact(n);
    }
    forall group, name | group in GROUPS && IsRecord(x.Old().heap, Group(x.Old().heap, x.comp, group))
      ensures x.New().Definition((group, name))
           == if x.Old().Wanted(x.view, (group, name)) then x.Old().Definition((group, name)) else None
    {
      x.Basics();
      x.GroupsOf(group);
      x.OnlyKeptRemain(group, name);
    }
    x.StillWanted(("", ""));
  }
}
