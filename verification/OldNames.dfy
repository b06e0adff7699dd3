/**
 Which old field a field of the new schema continues, read off the two schemas: the field
 of the same name, or else the first of its `@rename_from` names that was there.
 */
module OldNames {
  import opened Wrappers
  import opened Schemas
  import opened StoragePlans
  import opened Planner

  function ChildNames(children: seq<Child>): set<string> {
    set i | 0 <= i < |children| :: children[i].name
  }

  function FieldNames(fields: seq<Field>): set<string> {
    set i | 0 <= i < |fields| :: fields[i].name
  }

  /** Annotation `i` is the first that renames from a name that is `present`. */
  predicate FirstRename(annotations: seq<Annotation>, present: set<string>, i: nat) {
    i < |annotations| && annotations[i].RenameFrom? && annotations[i].from in present &&
    forall j :: 0 <= j < i && annotations[j].RenameFrom? ==> annotations[j].from !in present
  }

  /** Of the old names `present`, field `f` continues `g`. */
  predicate OldNameOf(f: Field, present: set<string>, g: string) {
    if f.name in present then g == f.name
    else exists i :: 0 <= i < |f.annotations| && f.annotations[i] == RenameFrom(g) && FirstRename(f.annotations, present, i)
  }

  /** Field `f` of a table whose old layout is `p` continues the old point `q`. */
  ghost predicate Continues(prior: Schema, p: OldPoint, f: Field, q: OldPoint) {
    p.ty.Table? && p.ty.name in prior.types && q.ty == f.ty &&
    exists g :: OldNameOf(f, ChildNames(p.node.children), g) && FindChild(p.node.children, g) == Some(q.node) &&
      FindField(prior.types[p.ty.name], g).Some? && FindField(prior.types[p.ty.name], g).value.ty == q.ty
  }

  /** The old point that a field continues, if there is one. */
  ghost function FieldPoint(prior: Schema, p: Option<OldPoint>, f: Field): Option<OldPoint> {
    if p.Some? && exists q :: Continues(prior, p.value, f, q) then
      var q :| Continues(prior, p.value, f, q);
      Some(q)
    else None
  }

  /** The old point of the members of a set, if it was a set of the same type. */
  function EntryPoint(p: Option<OldPoint>, member: FieldType): Option<OldPoint> {
    if p.Some? && p.value.ty == SetOf(member) && p.value.node.set_.Some? then Some(OldPoint(member, p.value.node.set_.value))
    else None
  }

  /** The old point of an export, if the old schema had it with the same type. */
  function RootPoint(oldPlan: Plan, prior: Schema, e: Export): Option<OldPoint> {
    if FindExport(prior.exports, e.name) == Some(e) && FindChild(oldPlan, e.name).Some?
    then Some(OldPoint(e.ty, FindChild(oldPlan, e.name).value))
    else None
  }

  /** Two fields of one table continue the same old field. */
  ghost predicate Clash(prior: Schema, p: Option<OldPoint>, f: Field, g: Field) {
    FieldPoint(prior, p, f).Some? && FieldPoint(prior, p, g).Some? &&
    exists name :: OldNameOf(f, ChildNames(p.value.node.children), name) &&
      OldNameOf(g, ChildNames(p.value.node.children), name)
  }

  // ---------------------------------------------------------------------------
  // What the planner computes

  lemma {:induction false} FindChildNames(children: seq<Child>, name: string)
    ensures FindChild(children, name).Some? <==> name in ChildNames(children)
  {
    if children != [] {
      FindChildNames(children[1..], name);
      if name in ChildNames(children[1..]) {
        var i :| 0 <= i < |children[1..]| && children[1..][i].name == name;
        assert children[i + 1].name == name;
      }
      if name in ChildNames(children) {
        var i :| 0 <= i < |children| && children[i].name == name;
        if i > 0 { assert children[1..][i - 1].name == name; }
      }
    }
  }

  lemma {:induction false} FirstRenameStep(annotations: seq<Annotation>, present: set<string>, i: nat)
    requires annotations != [] && (annotations[0].RenameFrom? ==> annotations[0].from !in present)
    ensures FirstRename(annotations[1..], present, i) <==> FirstRename(annotations, present, i + 1)
  {
    var rest := annotations[1..];
    if FirstRename(rest, present, i) {
      forall j | 0 <= j < i + 1 && annotations[j].RenameFrom? ensures annotations[j].from !in present {
        if j > 0 { assert rest[j - 1] == annotations[j]; }
      }
    }
    if FirstRename(annotations, present, i + 1) {
      forall j | 0 <= j < i && rest[j].RenameFrom? ensures rest[j].from !in present { assert rest[j] == annotations[j + 1]; }
    }
  }

  lemma {:induction false} RenamesFound(children: seq<Child>, annotations: seq<Annotation>, g: string)
    ensures FirstPresent(children, Renames(annotations)) == Some(g) <==>
      exists i :: 0 <= i < |annotations| && annotations[i] == RenameFrom(g) &&
        FirstRename(annotations, ChildNames(children), i)
    decreases |annotations|
  {
    var present := ChildNames(children);
    if annotations != [] {
      var rest := annotations[1..];
      RenamesFound(children, rest, g);
      if annotations[0].RenameFrom? {
        FindChildNames(children, annotations[0].from);
        assert ([annotations[0].from] + Renames(rest))[1..] == Renames(rest);
      } else {
        assert [] + Renames(rest) == Renames(rest);
      }
      if annotations[0].RenameFrom? && annotations[0].from in present {
        assert FirstRename(annotations, present, 0);
      } else {
        if i :| 0 <= i < |rest| && rest[i] == RenameFrom(g) && FirstRename(rest, present, i) {
          FirstRenameStep(annotations, present, i);
          assert annotations[i + 1] == rest[i];
        }
        if i :| 0 <= i < |annotations| && annotations[i] == RenameFrom(g) && FirstRename(annotations, present, i) {
          FirstRenameStep(annotations, present, i - 1);
          assert rest[i - 1] == annotations[i];
        }
      }
    }
  }

  /** The search through the alternative names finds the name the field continues. */
  lemma {:induction false} AltNamesFound(children: seq<Child>, f: Field, g: string)
    ensures FirstPresent(children, AltNames(f)) == Some(g) <==> OldNameOf(f, ChildNames(children), g)
  {
    FindChildNames(children, f.name);
    assert AltNames(f)[1..] == Renames(f.annotations);
    RenamesFound(children, f.annotations, g);
  }

  /** The planner inherits from the old point that the field continues, and from no other. */
  lemma {:induction false} FieldPointFound(prior: Schema, p: Option<OldPoint>, f: Field)
    ensures SubPoint(prior, p, f) == FieldPoint(prior, p, f)
  {
    if p.Some? {
      var children := p.value.node.children;
      var name := FirstPresent(children, AltNames(f));
      if SubPoint(prior, p, f).Some? {
        AltNamesFound(children, f, name.value);
        assert Continues(prior, p.value, f, SubPoint(prior, p, f).value);
      }
      forall q | Continues(prior, p.value, f, q) ensures SubPoint(prior, p, f) == Some(q) {
        var g :| OldNameOf(f, ChildNames(children), g) && FindChild(children, g) == Some(q.node) &&
          FindField(prior.types[p.value.ty.name], g).Some? && FindField(prior.types[p.value.ty.name], g).value.ty == q.ty;
        AltNamesFound(children, f, g);
      }
    }
  }

  lemma {:induction false} RootPointFound(oldPlan: Plan, prior: Schema, e: Export)
    ensures ExportPoint(oldPlan, prior, e) == RootPoint(oldPlan, prior, e)
  {
    FindExportNamed(prior.exports, e.name);
  }

  lemma {:induction false} FindExportNamed(exports: seq<Export>, name: string)
    ensures FindExport(exports, name).Some? ==> FindExport(exports, name).value.name == name
  {
    if exports != [] { FindExportNamed(exports[1..], name); }
  }

  /** Fields clash exactly if the search through their names stops at the same old child. */
  lemma {:induction false} ClashFound(prior: Schema, p: Option<OldPoint>, f: Field, g: Field)
    ensures Clash(prior, p, f, g) <==>
      (SubPoint(prior, p, f).Some? && SubPoint(prior, p, g).Some? &&
       FirstPresent(p.value.node.children, AltNames(f)) == FirstPresent(p.value.node.children, AltNames(g)))
  {
    FieldPointFound(prior, p, f);
    FieldPointFound(prior, p, g);
    if SubPoint(prior, p, f).Some? && SubPoint(prior, p, g).Some? {
      var children := p.value.node.children;
      forall name
        ensures OldNameOf(f, ChildNames(children), name) <==> FirstPresent(children, AltNames(f)) == Some(name)
        ensures OldNameOf(g, ChildNames(children), name) <==> FirstPresent(children, AltNames(g)) == Some(name)
      {
        AltNamesFound(children, f, name);
        AltNamesFound(children, g, name);
      }
    }
  }
}
