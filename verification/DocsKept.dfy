/** Pruning from end to end, said of the heap alone. */
module DocsKept {
  import opened Seqs
  import opened DocsPrune
  import opened DocsMeaning
  import opened DocsResolve

  /** The groups pruning looks into. */
  const PRUNABLE: set<string> := {"schemas", "responses", "parameters", "examples", "requestBodies", "headers",
                                  "securitySchemes", "links", "callbacks", "pathItems"}

  lemma GroupsArePrunable(group: string)
    ensures group in GROUPS <==> group in PRUNABLE
  {
    assert GROUPS[0] == "schemas" && GROUPS[1] == "responses" && GROUPS[2] == "parameters" && GROUPS[3] == "examples"
      && GROUPS[4] == "requestBodies" && GROUPS[5] == "headers" && GROUPS[6] == "securitySchemes"
      && GROUPS[7] == "links" && GROUPS[8] == "callbacks" && GROUPS[9] == "pathItems";
  }

  /** The definitions of a group pruning looks into: an object, not an array. */
  ghost predicate Prunable(doc: Doc, group: string, d: nat) {
    group in PRUNABLE && Has(doc, doc.comp, group, Ref(d)) && d in doc.heap && !doc.heap[d].isArray
  }

  /** Nothing but the components object and its prunable groups changes, and of the components object at most whether
      it has those groups: one goes if and only if nothing in it is needed. */
  ghost predicate Around(before: Doc, after: Doc, needed: iset<Component>) {
    && after.heap.Keys == before.heap.Keys
    && (forall n :: n in before.heap && n != before.comp && (forall group :: !Prunable(before, group, n)) ==>
      after.heap[n] == before.heap[n])
    && (forall key, v ::
      Has(after, after.comp, key, v) <==> Has(before, before.comp, key, v) && !Emptied(before, key, needed))
  }

  ghost predicate Emptied(doc: Doc, group: string, needed: iset<Component>) {
    exists d: nat :: Prunable(doc, group, d) && NoneNeeded(doc, group, d, needed)
  }

  /** Visible objects are as they were; their references resolve as they did, to the same value by the same parts, and
      what is needed is defined as it was. */
  ghost predicate Intact(before: Doc, after: Doc, visible: set<nat>, needed: iset<Component>) {
    && (forall n :: n in visible ==> n in before.heap && n in after.heap && after.heap[n] == before.heap[n])
    && (forall n, text, byName, parts, v :: n in visible ==>
      (PointsTo(after, n, text, byName, parts, v) <==> PointsTo(before, n, text, byName, parts, v)))
    && (forall c, v :: c in needed ==> (Defined(after, c, v) <==> Defined(before, c, v)))
  }

  /** In the prunable groups nothing is left that is not needed. */
  ghost predicate Minimal(before: Doc, after: Doc, needed: iset<Component>) {
    forall group, d: nat, name, v ::
      Prunable(before, group, d) && (group, name) !in needed ==> !Defined(after, (group, name), v)
  }

  /** The marks of a document, as sets. */
  ghost function VisibleOf(doc: Doc, view: nat): set<nat> {
    set m | m in doc.heap && doc.Live(view, m)
  }

  ghost function NeededOf(doc: Doc, view: nat): iset<Component> {
    iset c | doc.Wanted(view, c)
  }

  lemma SameFollowing(before: Doc, after: Doc, view: nat, n: nat, text: string, byName: bool)
    requires StillResolves(before, after, view) && n in before.heap && before.Live(view, n)
    requires Refers(before, n, text, byName) || (n in after.heap && Refers(after, n, text, byName))
    ensures n in after.heap && Refers(before, n, text, byName) && Refers(after, n, text, byName)
    ensures after.Following(text, byName) == before.Following(text, byName) && !before.Following(text, byName).bad
  {
    var step := Follow(Some(Text(text)), byName);
    FollowStep(before, n, text, byName);
    FollowStep(after, n, text, byName);
    assert step in before.Steps(n) && after.EffectOf(step) == before.EffectOf(step);
  }

  /** Two documents in which a reference has the same effect resolve it alike. */
  lemma SamePointing(a: Doc, b: Doc, n: nat, text: string, byName: bool, parts: seq<string>, v: Value)
    requires a.decode == b.decode && Refers(b, n, text, byName) && PointsTo(a, n, text, byName, parts, v)
    requires a.Following(text, byName) == b.Following(text, byName) && !b.Following(text, byName).bad
    ensures PointsTo(b, n, text, byName, parts, v)
  {
    PointerFollows(a, text, byName, parts, v);
    if byName && SchemaNamed(b, text) {
      NameFollows(b, text);
      assert false;
    }
    if Broken(b, text, byName) {
      BrokenFollows(b, text, byName);
      assert false;
    }
    var parts', v' :| Resolves(b, text, parts', v');
    PointerFollows(b, text, byName, parts', v');
    PartsOfIs(a, text, parts);
    PartsOfIs(b, text, parts');
  }

  lemma StillIntact(before: Doc, after: Doc, view: nat)
    requires StillResolves(before, after, view) && before.decode == after.decode
    ensures Intact(before, after, VisibleOf(before, view), NeededOf(before, view))
  {
    var visible := VisibleOf(before, view);
    forall n, text, byName, parts, v | n in visible
      ensures PointsTo(after, n, text, byName, parts, v) <==> PointsTo(before, n, text, byName, parts, v)
    {
      if Refers(before, n, text, byName) || Refers(after, n, text, byName) {
        SameFollowing(before, after, view, n, text, byName);
        if PointsTo(before, n, text, byName, parts, v) {
          SamePointing(before, after, n, text, byName, parts, v);
        }
        if PointsTo(after, n, text, byName, parts, v) {
          SamePointing(after, before, n, text, byName, parts, v);
        }
      }
    }
    forall c, v | before.Wanted(view, c) ensures Defined(after, c, v) <==> Defined(before, c, v) {
      var n, step :| n in before.heap && before.Live(view, n) && step in before.Steps(n)
        && before.EffectOf(step).keeps == Some(c);
      assert after.DefinitionFor(step) == before.DefinitionFor(step);
      DefinitionIs(before, c, v);
      DefinitionIs(after, c, v);
    }
  }

  lemma StillMinimal(before: Doc, after: Doc, view: nat)
    requires OnlyWantedRemain(before, after, view)
    ensures Minimal(before, after, NeededOf(before, view))
  {
    forall group, d: nat, name, v | Prunable(before, group, d) && !before.Wanted(view, (group, name))
      ensures !Defined(after, (group, name), v)
    {
      GroupsArePrunable(group);
      PropertyIs(before, before.comp, group, Ref(d));
      DefinitionIs(after, (group, name), v);
    }
  }

  lemma LeftEmpty(h: Heap, comp: nat, group: string, d: nat, kept: set<Component>)
    requires Group(h, comp, group) == Some(Ref(d)) && d in h && !h[d].isArray
    ensures Left(h, comp, group, kept) == [] <==>
      forall name, v :: First(h[d].entries, name, v) ==> (group, name) !in kept
  {
    var entries := h[d].entries;
    var left := Left(h, comp, group, kept);
    if left == [] {
      forall name, v | First(entries, name, v) ensures (group, name) !in kept {
        FindIsFirst(entries, name, v);
        LeftIsKept(entries, group, kept, name);
      }
    } else {
      var name := left[0].0;
      LeftIsKept(entries, group, kept, name);
      FindIsFirst(entries, name, left[0].1);
      assert First(entries, name, left[0].1);
    }
  }

  lemma GroupIs(x: Situation, group: string, d: nat)
    requires x.Deleted()
    ensures Prunable(x.Old(), group, d) <==>
      group in GROUPS && Group(x.h, x.comp, group) == Some(Ref(d)) && d in x.h && !x.h[d].isArray
  {
    GroupsArePrunable(group);
    x.Basics();
    PropertyIs(x.Old(), x.comp, group, Ref(d));
    x.GroupsOf(group);
  }

  /** Nothing in this group of a document is needed. */
  ghost predicate NoneNeeded(doc: Doc, group: string, d: nat, needed: iset<Component>) {
    forall name, v :: Has(doc, d, name, v) ==> (group, name) !in needed
  }

  lemma NoneNeededIs(x: Situation, group: string, d: nat, needed: iset<Component>)
    requires x.Deleted() && forall c :: c in needed <==> c in x.kept
    requires Group(x.h, x.comp, group) == Some(Ref(d)) && d in x.h && !x.h[d].isArray
    ensures NoneNeeded(x.Old(), group, d, needed) <==> Left(x.h, x.comp, group, x.kept) == []
  {
    x.GroupsOf(group);
    LeftEmpty(x.h, x.comp, group, d, x.kept);
    assert x.Old().heap[d] == x.h[d];
    assert forall name, v :: Has(x.Old(), d, name, v) <==> First(x.h[d].entries, name, v);
  }

  lemma EmptiedIs(x: Situation, group: string, needed: iset<Component>)
    requires x.Deleted() && forall c :: c in needed <==> c in x.kept
    ensures Emptied(x.Old(), group, needed) <==>
      group in GROUPS && IsRecord(x.h, Group(x.h, x.comp, group)) && Left(x.h, x.comp, group, x.kept) == []
  {
    var v := Group(x.h, x.comp, group);
    if Emptied(x.Old(), group, needed) {
      var d: nat :| Prunable(x.Old(), group, d) && NoneNeeded(x.Old(), group, d, needed);
      GroupIs(x, group, d);
      NoneNeededIs(x, group, d, needed);
    }
    if group in GROUPS && IsRecord(x.h, v) && Left(x.h, x.comp, group, x.kept) == [] {
      GroupIs(x, group, v.value.node);
      NoneNeededIs(x, group, v.value.node, needed);
    }
  }

  lemma PrunedAround(x: Situation, needed: iset<Component>)
    requires x.Deleted() && forall c :: c in needed <==> c in x.kept
    ensures Around(x.Old(), x.New(), needed)
  {
    x.Basics();
    forall n | n in x.Old().heap && n != x.comp && forall group :: !Prunable(x.Old(), group, n)
      ensures x.New().heap[n] == x.Old().heap[n]
    {
      if n != x.view {
        forall g | g in GROUPS ensures Group(x.h, x.comp, g) != Some(Ref(n)) || x.h[n].isArray {
          GroupIs(x, g, n);
        }
      }
    }
    forall key, v
      ensures Has(x.New(), x.comp, key, v) <==> Has(x.Old(), x.comp, key, v) && !Emptied(x.Old(), key, needed)
    {
      EmptiedIs(x, key, needed);
      PropertyIs(x.Old(), x.comp, key, v);
      PropertyIs(x.New(), x.comp, key, v);
      x.GroupsOf(key);
    }
  }

  /** The marks of the pruned document are those of the document before. */
  lemma SameMarks(x: Situation)
    requires x.Deleted() && x.Marked()
    ensures Found(x.New(), x.view, VisibleOf(x.Old(), x.view), NeededOf(x.Old(), x.view))
  {
    forall n | n in x.Old().heap ensures x.New().Live(x.view, n) <==> x.Old().Live(x.view, n) {
      x.LiveSame(n);
    }
    forall c ensures x.New().Wanted(x.view, c) <==> x.Old().Wanted(x.view, c) {
      x.StillWanted(c);
    }
  }

  /** What pruning made of a document, given what is visible and needed: everything visible is intact and nothing
      unneeded is left, nothing else has changed, and the same is visible and needed as before. */
  ghost predicate WellPruned(before: Doc, after: Doc, view: nat, visible: set<nat>, needed: iset<Component>) {
    && Intact(before, after, visible, needed) && Minimal(before, after, needed) && Around(before, after, needed)
    && Least(after, view, visible, needed) && !SomeBroken(after, visible)
  }

  lemma PrunedWell(x: Situation)
    requires x.Deleted() && x.Marked()
    ensures WellPruned(x.Old(), x.New(), x.view, VisibleOf(x.Old(), x.view), NeededOf(x.Old(), x.view))
  {
    PrunedResolves(x);
    StillIntact(x.Old(), x.New(), x.view);
    StillMinimal(x.Old(), x.New(), x.view);
    PrunedAround(x, NeededOf(x.Old(), x.view));
    SameMarks(x);
    MarksAreLeastClosed(x.New(), x.view, VisibleOf(x.Old(), x.view), NeededOf(x.Old(), x.view));
  }

  /** From end to end: pruning a JSON tree leaves it alone if it has no components object, or if something visible holds
      a broken reference; otherwise it leaves what is visible intact and nothing unneeded. What is visible and needed is
      the least that is closed, from the schema without its components on. */
  method PruneAndResolve(document: Document, view: nat) returns (ghost visible: set<nat>, ghost needed: iset<Component>)
    requires document.root in document.heap && Tree(document.heap, document.root) && view !in document.heap
    modifies document`heap
    ensures var before := old(document.Viewed(view));
      && Least(before, view, visible, needed)
      && if !IsRecord(old(document.heap), Find(old(document.heap)[document.root].entries, "components"))
           || SomeBroken(before, visible)
         then document.heap == old(document.heap)
         else
           var after := Doc(document.heap[view := before.heap[view]], document.root, before.comp, document.decode);
           && WellPruned(before, after, view, visible, needed)
           && StillResolves(before, after, view) && OnlyWantedRemain(before, after, view) && !after.Unresolved(view)
  {
    ghost var h, before := document.heap, document.Viewed(view);
    visible, needed := VisibleOf(before, view), NeededOf(before, view);
    MarksAreLeastClosed(before, view, visible, needed);
    ghost var kept := document.Prune(view);
    if IsRecord(h, Find(h[document.root].entries, "components")) && !before.Unresolved(view) {
      ghost var x := Situation(h, document.heap, document.root, before.comp, view, document.decode, kept);
      PruneIsDeletion(h, document.root, before.comp, view, document.decode, kept);
      assert x.Old() == before;
      PrunedResolves(x);
      PrunedWell(x);
    }
  }
}
