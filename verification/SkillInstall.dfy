/**
 Installing selected skills with a command that can only install all of them, in two ways: in a staging
 mirror from which the selected entries are copied, or in place, where everything else is undone afterwards.
 A skills tree is a map from names to entries.
 */
module SkillInstall {
  import opened Wrappers
  import opened Search

  /** A file at the end of a path inside a directory entry. */
  datatype Leaf = Bytes(content: string) | LeafLink(target: string)

  /** A directory without files of its own, or a link to one: the walk of the signature passes over both. */
  datatype Hollow = EmptyDir | DirLink(target: string)

  datatype Entry =
    | File(content: string)
    | Link(target: string)
    | Dir(files: map<string, Leaf>, hollow: map<string, Hollow>)

  type Tree = map<string, Entry>

  /** An entry that is no link itself: what a link at the top leads to, once followed. */
  type Real = e: Entry | !e.Link? witness File("")

  /** Where the links inside the staging mirror lead; a link whose target is missing here dangles. */
  type Targets = map<string, Real>

  /** What the fingerprint of an entry depends on; two equal hashes are taken for equal contents. */
  datatype Signature = FileSignature(content: string) | LinkSignature(target: string)
    | DirSignature(files: map<string, Leaf>)

  function SignatureOf(e: Entry): Signature {
    match e
    case File(content) => FileSignature(content)
    case Link(target) => LinkSignature(target)
    case Dir(files, _) => DirSignature(files)
  }

  /** A link at the top of an entry or anywhere inside it leads out of the skills directory. */
  predicate Escapes(e: Entry, outside: set<string>) {
    match e
    case File(_) => false
    case Link(target) => target in outside
    case Dir(files, hollow) =>
      || (exists path :: path in files && files[path].LeafLink? && files[path].target in outside)
      || (exists path :: path in hollow && hollow[path].DirLink? && hollow[path].target in outside)
  }

  function Escaped(tree: Tree, names: set<string>, outside: set<string>): set<string> {
    set n | n in names && n in tree && Escapes(tree[n], outside)
  }

  /** What a run of the command did: it wrote all its entries, or stopped after some. */
  datatype Outcome = Wrote(entries: Tree) | Stopped(entries: Tree)

  datatype Result = Result(ok: bool, written: set<string>, skipped: set<string>, overwritten: set<string>,
    failed: set<string>)

  const REFUSED := Result(false, {}, {}, {}, {})

  /** The tree with just these names taken from some entries. */
  function Updated(tree: Tree, entries: Tree, names: set<string>): Tree {
    map n | n in tree.Keys + entries.Keys * names :: if n in entries && n in names then entries[n] else tree[n]
  }

  predicate Dangles(e: Entry, targets: Targets) {
    e.Link? && e.target !in targets
  }

  /** The copy of a staged entry: a link at the top is followed, links inside a directory are kept. */
  function Copy(e: Entry, targets: Targets): Real
    requires !Dangles(e, targets)
  {
    if e.Link? then targets[e.target] else e
  }

  /** The first selected name whose copy fails, or the end. */
  function FailsAt(order: seq<string>, entries: Tree, selected: set<string>, targets: Targets): (k: nat)
    ensures k <= |order|
    ensures k < |order| ==> order[k] in selected && order[k] in entries && Dangles(entries[order[k]], targets)
    ensures forall i :: 0 <= i < k && order[i] in selected && order[i] in entries ==>
      !Dangles(entries[order[i]], targets)
  {
    FirstIndex(order, n => n in selected && n in entries && Dangles(entries[n], targets))
  }

  /** A listing of the staged names, each once; the source sorts them. */
  ghost predicate Lists(order: seq<string>, entries: Tree) {
    && (forall n :: n in order <==> n in entries)
    && (forall i, j :: 0 <= i < j < |order| ==> order[i] != order[j])
  }

  /** A name in the list that the user selected and whose copy works. */
  predicate Taken(n: string, names: seq<string>, entries: Tree, selected: set<string>, targets: Targets) {
    n in names && n in selected && n in entries && !Dangles(entries[n], targets)
  }

  /** The tree after the copies of some names. */
  function Copied(tree: Tree, entries: Tree, names: seq<string>, selected: set<string>, targets: Targets): Tree {
    map n | n in tree.Keys + entries.Keys && (n in tree || Taken(n, names, entries, selected, targets)) ::
      if Taken(n, names, entries, selected, targets) then Copy(entries[n], targets) else tree[n]
  }

  /** What staging leaves: the copies up to the first that fails, whose old entry is gone already. */
  function Staged(tree: Tree, entries: Tree, order: seq<string>, selected: set<string>, targets: Targets): Tree {
    var k := FailsAt(order, entries, selected, targets);
    var copied := Copied(tree, entries, order[..k], selected, targets);
    if k < |order| then copied - {order[k]} else copied
  }

  lemma CopiedStep(tree: Tree, entries: Tree, names: seq<string>, name: string, selected: set<string>, targets: Targets)
    requires name in entries
    ensures Copied(tree, entries, names + [name], selected, targets) ==
      var t := Copied(tree, entries, names, selected, targets);
      if name in selected && !Dangles(entries[name], targets) then t[name := Copy(entries[name], targets)] else t
  {
    var t, u := Copied(tree, entries, names, selected, targets),
      Copied(tree, entries, names + [name], selected, targets);
    assert forall n :: n != name ==>
      (Taken(n, names + [name], entries, selected, targets) <==> Taken(n, names, entries, selected, targets));
    if !(name in selected && !Dangles(entries[name], targets)) {
      assert u == t;
    }
  }

  /** The in-place run overwrote a name that existed before, as far as the signatures show. */
  function Overwritten(tree: Tree, entries: Tree): set<string> {
    set n | n in tree && n in entries && SignatureOf(entries[n]) != SignatureOf(tree[n])
  }

  /** Overwritten names the user did not ask for. */
  function Unwanted(tree: Tree, entries: Tree, selected: set<string>): set<string> {
    Overwritten(tree, entries) - selected
  }

  /** The tree after the unwanted overwrites are undone; backups and restores may fail name by name. */
  function Undone(tree: Tree, entries: Tree, selected: set<string>, backedUp: set<string>,
    restorable: set<string>): Tree {
    var unwanted := Unwanted(tree, entries, selected);
    map n | n in tree.Keys + entries.Keys && !(n in unwanted && n in backedUp && n !in restorable) ::
      if n in unwanted && n in backedUp then tree[n] else if n in entries then entries[n] else tree[n]
  }

  /** A tree is the undone one if it is so name by name. */
  lemma UndoneByName(t: Tree, tree: Tree, entries: Tree, selected: set<string>, backedUp: set<string>,
    restorable: set<string>)
    requires var undo := Unwanted(tree, entries, selected) * backedUp;
      && (forall n :: n in t <==> (n in tree || n in entries) && !(n in undo && n !in restorable))
      && (forall n :: n in t ==> t[n] == if n in undo then tree[n] else (tree + entries)[n])
    ensures t == Undone(tree, entries, selected, backedUp, restorable)
  {
  }

  /** Some entry the command wrote, of these names, leads outside. */
  predicate AnyEscapes(entries: Tree, names: set<string>, outside: set<string>) {
    Escaped(entries, names, outside) != {}
  }

  /** The tree after an install in the staging mirror: an escape anywhere refuses it. */
  function StagingLeaves(tree: Tree, run: Outcome, order: seq<string>, selected: set<string>, outside: set<string>,
    targets: Targets): Tree {
    if run.Stopped? || AnyEscapes(run.entries, run.entries.Keys, outside) then tree
    else Staged(tree, run.entries, order, selected, targets)
  }

  /** The tree after an install in place: only new names are looked at for escapes, and one takes them all away. */
  function DirectLeaves(tree: Tree, run: Outcome, selected: set<string>, outside: set<string>, backedUp: set<string>,
    restorable: set<string>): Tree {
    if run.Stopped? then tree + run.entries
    else
      var undone, added := Undone(tree, run.entries, selected, backedUp, restorable), run.entries.Keys - tree.Keys;
      if AnyEscapes(run.entries, added, outside) then undone - added else undone - (added - selected)
  }

  /** The unwanted overwrites that could not be undone. */
  function Failed(tree: Tree, entries: Tree, selected: set<string>, backedUp: set<string>,
    restorable: set<string>): set<string> {
    Unwanted(tree, entries, selected) - backedUp * restorable
  }

  lemma TakenStep(order: seq<string>, i: nat, entries: Tree, selected: set<string>, targets: Targets)
    requires i < |order| && order[i] in entries
    ensures order[..i + 1] == order[..i] + [order[i]]
    ensures forall n :: n in order[..i + 1] <==> n in order[..i] || n == order[i]
    ensures forall n :: Taken(n, order[..i + 1], entries, selected, targets) <==>
      Taken(n, order[..i], entries, selected, targets)
      || (n == order[i] && n in selected && !Dangles(entries[n], targets))
  {
    assert order[..i + 1] == order[..i] + [order[i]];
  }

  class SkillsDir {
    var tree: Tree

    method InstallViaStaging(run: Outcome, order: seq<string>, selected: set<string>, outside: set<string>,
      targets: Targets)
      returns (r: Result)
      requires Lists(order, run.entries)
      modifies this
      ensures tree == StagingLeaves(old(tree), run, order, selected, outside, targets)
      ensures run.Stopped? || AnyEscapes(run.entries, run.entries.Keys, outside) ==> r == REFUSED
      ensures run.Wrote? && !AnyEscapes(run.entries, run.entries.Keys, outside) ==>
        && (r.ok <==> forall n :: n in run.entries && n in selected ==> !Dangles(run.entries[n], targets))
        && (forall n :: n in r.written <==>
              Taken(n, order[..FailsAt(order, run.entries, selected, targets)], run.entries, selected, targets))
        && (r.ok ==> r.skipped == run.entries.Keys - selected && r.failed == {}
                     && r.overwritten == run.entries.Keys * selected * old(tree).Keys)
    {
      if run.Stopped? {
        return REFUSED;
      }
      var staged := run.entries;
      if AnyEscapes(staged, staged.Keys, outside) {
        return REFUSED;
      }
      r := CopySelected(staged, order, selected, targets);
      var k := FailsAt(order, staged, selected, targets);
      if k < |order| {
        assert order[k] in order;
      } else {
        assert order[..k] == order;
      }
    }

    /** The selected entries replace those of their names, one after the other, until a copy fails. */
    method CopySelected(staged: Tree, order: seq<string>, selected: set<string>, targets: Targets) returns (r: Result)
      requires Lists(order, staged)
      modifies this
      ensures tree == Staged(old(tree), staged, order, selected, targets)
      ensures var k := FailsAt(order, staged, selected, targets);
        && (r.ok <==> k == |order|)
        && (forall n :: n in r.written <==> Taken(n, order[..k], staged, selected, targets))
        && (forall n :: n in r.skipped <==> n in order[..k] && n !in selected)
        && (forall n :: n in r.overwritten ==> n in old(tree))
        && (r.ok ==> forall n :: n in r.overwritten <==> n in r.written && n in old(tree))
        && r.failed == {}
    {
      var before := tree.Keys;
      var written: set<string>, skipped: set<string>, overwritten: set<string> := {}, {}, {};
      ghost var k := FailsAt(order, staged, selected, targets);
      for i := 0 to |order|
        invariant i <= k
        invariant tree == Copied(old(tree), staged, order[..i], selected, targets)
        invariant forall n :: n in written <==> Taken(n, order[..i], staged, selected, targets)
        invariant forall n :: n in skipped <==> n in order[..i] && n !in selected
        invariant forall n :: n in overwritten <==> n in written && n in before
      {
        var name := order[i];
        assert name in order;
        assert name in selected && Dangles(staged[name], targets) <==> i == k;
        CopiedStep(old(tree), staged, order[..i], name, selected, targets);
        TakenStep(order, i, staged, selected, targets);
        if name !in selected {
          skipped := skipped + {name};
          continue;
        }
        if name in before {
          overwritten := overwritten + {name};
        }
        var ok := CopyOne(name, staged[name], targets);
        if !ok {
          return Result(false, written, skipped, overwritten, {});
        }
        written := written + {name};
      }
      assert order[..|order|] == order;
      r := Result(true, written, skipped, overwritten, {});
    }

    /** The old entry goes before the copy is tried. */
    method CopyOne(name: string, entry: Entry, targets: Targets) returns (ok: bool)
      modifies this
      ensures ok <==> !Dangles(entry, targets)
      ensures tree == if ok then old(tree)[name := Copy(entry, targets)] else old(tree) - {name}
    {
      tree := tree - {name};
      ok := !Dangles(entry, targets);
      if ok {
        tree := tree[name := Copy(entry, targets)];
      }
    }

    method InstallDirect(run: Outcome, selected: set<string>, outside: set<string>, backedUp: set<string>,
      restorable: set<string>)
      returns (r: Result)
      modifies this
      ensures tree == DirectLeaves(old(tree), run, selected, outside, backedUp, restorable)
      ensures run.Stopped? ==> r == REFUSED
      ensures run.Wrote? ==>
        var added := run.entries.Keys - old(tree).Keys;
        && r.failed == Failed(old(tree), run.entries, selected, backedUp, restorable)
        && r.overwritten == Overwritten(old(tree), run.entries) - r.failed
        && (r.ok <==> !AnyEscapes(run.entries, added, outside) && r.failed == {})
        && (!AnyEscapes(run.entries, added, outside) ==> r.written == added * selected && r.skipped == added - selected)
    {
      var before := tree;
      tree := tree + run.entries;
      if run.Stopped? {
        return REFUSED;
      }
      var entries := run.entries;
      var overwritten, failed := UndoUnwanted(before, entries, selected, backedUp, restorable);
      var added := entries.Keys - before.Keys;
      if AnyEscapes(entries, added, outside) {
        tree := tree - added;
        return Result(false, {}, {}, overwritten, failed);
      }
      var undone := tree;
      var written: set<string>, skipped: set<string> := {}, {};
      var todo := added;
      while todo != {}
        invariant todo <= added
        invariant written == (added - todo) * selected && skipped == added - todo - selected
        invariant tree == undone - skipped
      {
        var name :| name in todo;
        todo := todo - {name};
        if name in selected {
          written := written + {name};
        } else {
          skipped := skipped + {name};
          tree := tree - {name};
        }
      }
      return Result(failed == {}, written, skipped, overwritten, failed);
    }

    /** Puts back every entry that was overwritten without being selected, as far as that is possible. */
    method UndoUnwanted(before: Tree, entries: Tree, selected: set<string>, backedUp: set<string>,
      restorable: set<string>)
      returns (overwritten: set<string>, failed: set<string>)
      requires tree == before + entries
      modifies this
      ensures tree == Undone(before, entries, selected, backedUp, restorable)
      ensures failed == Unwanted(before, entries, selected) - backedUp * restorable
      ensures overwritten == Overwritten(before, entries) - failed
    {
      overwritten, failed := {}, {};
      ghost var whole, changed := tree, Overwritten(before, entries);
      ghost var unwanted := Unwanted(before, entries, selected);
      ghost var lost := unwanted * backedUp - restorable;
      var todo := before.Keys;
      while todo != {}
        invariant todo <= before.Keys
        invariant forall n :: n in tree <==> (n in before || n in entries) && !(n in lost && n !in todo)
        invariant forall n :: n in tree ==>
          tree[n] == (if n in unwanted && n in backedUp && n !in todo then before[n] else whole[n])
        invariant forall n :: n in failed <==> n in unwanted && n !in todo && !(n in backedUp && n in restorable)
        invariant forall n :: n in overwritten <==> n in changed && n !in todo && n !in failed
      {
        var name :| name in todo;
        todo := todo - {name};
        var changedHere, failedHere := UndoOne(name, before[name], name in selected, name in backedUp,
          name in restorable);
        if changedHere {
          overwritten := overwritten + {name};
        }
        if failedHere {
          failed := failed + {name};
        }
      }
      UndoneByName(tree, before, entries, selected, backedUp, restorable);
    }

    /** One turn of the loop: an unselected entry that changed is replaced by its backup. */
    method UndoOne(name: string, original: Entry, isSelected: bool, isBackedUp: bool, isRestorable: bool)
      returns (overwritten: bool, failed: bool)
      requires name in tree
      modifies this
      ensures var now := old(tree)[name];
        var changed := SignatureOf(now) != SignatureOf(original);
        && failed == (changed && !isSelected && !(isBackedUp && isRestorable))
        && overwritten == (changed && !failed)
        && tree == if !changed || isSelected || !isBackedUp then old(tree)
                   else if isRestorable then old(tree)[name := original] else old(tree) - {name}
    {
      overwritten, failed := false, false;
      if SignatureOf(tree[name]) == SignatureOf(original) {
        return;
      }
      if isSelected {
        overwritten := true;
        return;
      }
      if isBackedUp {
        tree := tree - {name};
        if isRestorable {
          tree := tree[name := original];
          overwritten := true;
        } else {
          failed := true;
        }
      } else {
        failed := true;
      }
    }
  }
}

/** When the two ways of installing leave the same tree, escapes and failed backups included. */
module SkillInstallAgreement {
  import opened Wrappers
  import opened SkillInstall

  /** The command rewrote an entry in a way its signature does not show. */
  predicate Unnoticed(tree: Tree, entries: Tree, n: string) {
    n in tree && n in entries && SignatureOf(entries[n]) == SignatureOf(tree[n]) && entries[n] != tree[n]
  }

  /** What goes unnoticed is a directory that kept its files and changed the empty or linked directories inside. */
  lemma UnnoticedIsHollow(tree: Tree, entries: Tree, n: string)
    ensures Unnoticed(tree, entries, n) <==>
      && n in tree && n in entries && tree[n].Dir? && entries[n].Dir?
      && tree[n].files == entries[n].files && tree[n].hollow != entries[n].hollow
  {
  }

  /** A link to the target is the entry itself or somewhere inside. */
  predicate LinksTo(e: Entry, target: string) {
    e == Link(target) || (e.Dir? && (LeafLink(target) in e.files.Values || DirLink(target) in e.hollow.Values))
  }

  /** An entry escapes if and only if it is a link that leads outside or has one anywhere inside. */
  lemma EscapesExactly(e: Entry, outside: set<string>)
    ensures Escapes(e, outside) <==> exists t :: t in outside && LinksTo(e, t)
  {
    if Escapes(e, outside) {
      match e
      case Link(target) => assert LinksTo(e, target);
      case Dir(files, hollow) =>
        if path :| path in files && files[path].LeafLink? && files[path].target in outside {
          assert files[path] == LeafLink(files[path].target) && files[path] in files.Values;
          assert LinksTo(e, files[path].target);
        } else {
          var path :| path in hollow && hollow[path].DirLink? && hollow[path].target in outside;
          assert hollow[path] == DirLink(hollow[path].target) && hollow[path] in hollow.Values;
          assert LinksTo(e, hollow[path].target);
        }
    }
  }

  /** No selected entry was written as a link, and no entry the user did not select was rewritten unnoticed. */
  ghost predicate Plain(tree: Tree, entries: Tree, selected: set<string>) {
    && (forall n :: n in entries && n in selected ==> !entries[n].Link?)
    && (forall n :: Unnoticed(tree, entries, n) ==> n in selected)
  }

  /** Whatever the command changed of what was there is undone: it was not selected and the signature shows it. */
  ghost predicate Reversible(tree: Tree, entries: Tree, selected: set<string>) {
    forall n :: n in tree && n in entries && entries[n] != tree[n] ==> n !in selected && !Unnoticed(tree, entries, n)
  }

  /** Nothing new stays in place: an escape under a new name takes all new names away, or none was selected. */
  predicate NothingNew(tree: Tree, entries: Tree, selected: set<string>, outside: set<string>) {
    var added := entries.Keys - tree.Keys;
    AnyEscapes(entries, added, outside) || added * selected == {}
  }

  /** When an entry that existed is as it was after the unwanted overwrites were undone. */
  lemma UndoneAt(tree: Tree, entries: Tree, selected: set<string>, backedUp: set<string>, restorable: set<string>,
    n: string)
    requires n in tree
    ensures var undone := Undone(tree, entries, selected, backedUp, restorable);
      n in undone && undone[n] == tree[n] <==>
      && n !in Failed(tree, entries, selected, backedUp, restorable)
      && (n in entries && entries[n] != tree[n] ==> n !in selected && !Unnoticed(tree, entries, n))
  {
  }

  /** What the in-place way leaves of the entries that existed. */
  lemma OldEntriesBack(tree: Tree, entries: Tree, selected: set<string>, backedUp: set<string>, restorable: set<string>)
    ensures var undone := Undone(tree, entries, selected, backedUp, restorable);
      undone - (entries.Keys - tree.Keys) == tree <==>
      Failed(tree, entries, selected, backedUp, restorable) == {} && Reversible(tree, entries, selected)
  {
    var undone := Undone(tree, entries, selected, backedUp, restorable);
    var rest := undone - (entries.Keys - tree.Keys);
    forall n | n in tree
      ensures n in rest && rest[n] == tree[n] <==>
        && n !in Failed(tree, entries, selected, backedUp, restorable)
        && (n in entries && entries[n] != tree[n] ==> n !in selected && !Unnoticed(tree, entries, n))
    {
      UndoneAt(tree, entries, selected, backedUp, restorable, n);
    }
    if rest == tree {
      assert forall n :: n in tree ==> n in rest && rest[n] == tree[n];
    }
  }

  /**
   In place, an escape anywhere leaves the tree as it was if and only if every unwanted overwrite could be undone, what
   the command changed of the tree is all reversible, and no selected new entry stays because the escape was
   only under a name that existed, where the in-place way does not look.
   */
  lemma EscapeUndoneExactly(tree: Tree, entries: Tree, selected: set<string>, outside: set<string>,
    backedUp: set<string>, restorable: set<string>)
    requires AnyEscapes(entries, entries.Keys, outside)
    ensures DirectLeaves(tree, Wrote(entries), selected, outside, backedUp, restorable) == tree <==>
      && Failed(tree, entries, selected, backedUp, restorable) == {}
      && Reversible(tree, entries, selected) && NothingNew(tree, entries, selected, outside)
  {
    var undone, added := Undone(tree, entries, selected, backedUp, restorable), entries.Keys - tree.Keys;
    var left := DirectLeaves(tree, Wrote(entries), selected, outside, backedUp, restorable);
    OldEntriesBack(tree, entries, selected, backedUp, restorable);
    if !AnyEscapes(entries, added, outside) {
      if n :| n in added && n in selected {
        assert n in left && n !in tree;
        assert n in added * selected;
      } else {
        assert added - selected == added && added * selected == {};
      }
    }
  }

  /** The two ways differ in what becomes of a selected entry that is a link at the top. */
  lemma SelectedDiffer(tree: Tree, entries: Tree, order: seq<string>, selected: set<string>, targets: Targets,
    direct: Tree, n: string)
    requires Lists(order, entries) && n in entries && n in selected && entries[n].Link?
    requires forall m :: m in entries && m in selected ==> m in direct && direct[m] == entries[m]
    ensures direct != Staged(tree, entries, order, selected, targets)
  {
    var staged := Staged(tree, entries, order, selected, targets);
    var k := FailsAt(order, entries, selected, targets);
    if k < |order| {
      var d := order[k];
      assert d in order && d in direct && d !in staged;
    } else {
      assert order[..k] == order && n in order;
      assert n in staged && !staged[n].Link?;
    }
  }

  lemma StagedWithoutLinks(tree: Tree, entries: Tree, order: seq<string>, selected: set<string>, targets: Targets)
    requires Lists(order, entries)
    requires forall n :: n in entries && n in selected ==> !entries[n].Link?
    ensures Staged(tree, entries, order, selected, targets) == Updated(tree, entries, selected)
  {
    var k := FailsAt(order, entries, selected, targets);
    assert order[..k] == order && order[k..] == [];
  }

  /** Without links among the selected entries and without escapes, the rest is undone under these conditions. */
  lemma UnnoticedExactly(tree: Tree, entries: Tree, selected: set<string>, backedUp: set<string>,
    restorable: set<string>)
    ensures (Undone(tree, entries, selected, backedUp, restorable) - (entries.Keys - tree.Keys - selected) ==
             Updated(tree, entries, selected)) <==>
      && Failed(tree, entries, selected, backedUp, restorable) == {}
      && forall n :: Unnoticed(tree, entries, n) ==> n in selected
  {
    var a := Undone(tree, entries, selected, backedUp, restorable) - (entries.Keys - tree.Keys - selected);
    var b := Updated(tree, entries, selected);
    forall n | n in b
      ensures n in a && a[n] == b[n] <==>
        && n !in Failed(tree, entries, selected, backedUp, restorable)
        && (Unnoticed(tree, entries, n) ==> n in selected)
    {
    }
    assert forall n :: n in a ==> n in b;
    if a == b {
      assert forall n :: n in b ==> n in a && a[n] == b[n];
    }
  }

  /** When nothing escapes. */
  lemma AgreeWithoutEscapes(tree: Tree, entries: Tree, order: seq<string>, selected: set<string>, outside: set<string>,
    targets: Targets, backedUp: set<string>, restorable: set<string>)
    requires Lists(order, entries) && !AnyEscapes(entries, entries.Keys, outside)
    ensures (DirectLeaves(tree, Wrote(entries), selected, outside, backedUp, restorable) ==
             StagingLeaves(tree, Wrote(entries), order, selected, outside, targets)) <==>
      Failed(tree, entries, selected, backedUp, restorable) == {} && Plain(tree, entries, selected)
  {
    var added := entries.Keys - tree.Keys;
    NoNewEscapes(entries, added, outside);
    if n :| n in entries && n in selected && entries[n].Link? {
      var direct := DirectLeaves(tree, Wrote(entries), selected, outside, backedUp, restorable);
      SelectedDiffer(tree, entries, order, selected, targets, direct, n);
    } else {
      StagedWithoutLinks(tree, entries, order, selected, targets);
      UnnoticedExactly(tree, entries, selected, backedUp, restorable);
      assert entries.Keys - tree.Keys - selected == added - selected;
    }
  }

  lemma NoNewEscapes(entries: Tree, names: set<string>, outside: set<string>)
    requires !AnyEscapes(entries, entries.Keys, outside)
    ensures !AnyEscapes(entries, names, outside)
  {
    forall n
      ensures n !in Escaped(entries, names, outside)
    {
      assert n !in Escaped(entries, entries.Keys, outside);
    }
  }

  /**
   When the two ways leave the same tree, for every run of the command and any backups and restores that fail:
   if it stopped, when it had changed nothing yet; if something it wrote escapes, when the in-place way undoes it
   all; otherwise when every unwanted overwrite was undone, no selected entry is a link, and no entry that was not
   selected was rewritten unnoticed.
   */
  lemma PathsAgreeExactly(tree: Tree, run: Outcome, order: seq<string>, selected: set<string>, outside: set<string>,
    targets: Targets, backedUp: set<string>, restorable: set<string>)
    requires Lists(order, run.entries)
    ensures (DirectLeaves(tree, run, selected, outside, backedUp, restorable) ==
             StagingLeaves(tree, run, order, selected, outside, targets)) <==>
      var entries := run.entries;
      if run.Stopped? then forall n :: n in entries ==> n in tree && tree[n] == entries[n]
      else
        && Failed(tree, entries, selected, backedUp, restorable) == {}
        && if AnyEscapes(entries, entries.Keys, outside)
           then Reversible(tree, entries, selected) && NothingNew(tree, entries, selected, outside)
           else Plain(tree, entries, selected)
  {
    match run
    case Stopped(entries) =>
      if tree + entries == tree {
        forall n | n in entries
          ensures n in tree && tree[n] == entries[n]
        {
          assert n in tree + entries && (tree + entries)[n] == entries[n];
        }
      }
    case Wrote(entries) =>
      if AnyEscapes(entries, entries.Keys, outside) {
        EscapeUndoneExactly(tree, entries, selected, outside, backedUp, restorable);
      } else {
        AgreeWithoutEscapes(tree, entries, order, selected, outside, targets, backedUp, restorable);
      }
  }

  /** An entry without links at the top and without empty or linked directories inside. */
  predicate Solid(e: Entry) {
    !e.Link? && (e.Dir? ==> e.hollow == map[])
  }

  /**
   In particular they agree when nothing escapes, backups and restores work, the entries written are solid, and so are
   the directories they replace.
   */
  lemma SolidPathsAgree(tree: Tree, entries: Tree, order: seq<string>, selected: set<string>, outside: set<string>,
    targets: Targets)
    requires Lists(order, entries) && !AnyEscapes(entries, entries.Keys, outside)
    requires forall n :: n in entries ==> Solid(entries[n])
    requires forall n :: n in tree && n in entries && tree[n].Dir? ==> Solid(tree[n])
    ensures DirectLeaves(tree, Wrote(entries), selected, outside, tree.Keys, tree.Keys) ==
      StagingLeaves(tree, Wrote(entries), order, selected, outside, targets)
  {
    AgreeWithoutEscapes(tree, entries, order, selected, outside, targets, tree.Keys, tree.Keys);
  }

  /** They differ on a directory entry that only gains an empty directory. */
  lemma EmptyDirectoryDiffers(n: string, files: map<string, Leaf>, path: string, outside: set<string>, targets: Targets)
    requires forall p :: p in files ==> files[p].Bytes?
    ensures var tree, entries: Tree := map[n := Dir(files, map[])], map[n := Dir(files, map[path := EmptyDir])];
      DirectLeaves(tree, Wrote(entries), {}, outside, {n}, {n}) !=
      StagingLeaves(tree, Wrote(entries), [n], {}, outside, targets)
  {
    var tree, entries: Tree := map[n := Dir(files, map[])], map[n := Dir(files, map[path := EmptyDir])];
    assert !Escapes(entries[n], outside);
    PathsAgreeExactly(tree, Wrote(entries), [n], {}, outside, targets, {n}, {n});
    assert path in entries[n].hollow;
    assert Unnoticed(tree, entries, n);
  }

  /** On a selected new link they differ unless it leads outside, when both ways refuse. */
  lemma SelectedLinkDiffers(n: string, target: string, outside: set<string>, targets: Targets)
    ensures var run := Wrote(map[n := Link(target)]);
      DirectLeaves(map[], run, {n}, outside, {}, {}) != StagingLeaves(map[], run, [n], {n}, outside, targets) <==>
      target !in outside
  {
    var none: Tree, entries: Tree := map[], map[n := Link(target)];
    PathsAgreeExactly(none, Wrote(entries), [n], {n}, outside, targets, {}, {});
    assert Escapes(entries[n], outside) <==> target in outside;
    assert n in Escaped(entries, entries.Keys, outside) <==> target in outside;
    assert n in Escaped(entries, entries.Keys - none.Keys, outside) <==> target in outside;
  }

  /**
   An escape under a name that existed is undone with the overwrite, but goes unseen as an escape: staging refuses
   the run, and the in-place way installs the selected new entry.
   */
  lemma OldNameEscapeInstalls(n: string, m: string, was: string, now: string, target: string, targets: Targets)
    requires n != m
    ensures var tree: Tree := map[n := File(was)];
      var run := Wrote(map[n := Link(target), m := File(now)]);
      && StagingLeaves(tree, run, [n, m], {m}, {target}, targets) == tree
      && DirectLeaves(tree, run, {m}, {target}, {n}, {n}) == tree[m := File(now)]
  {
  }

  /** An escape inside a selected directory that existed stays in place. */
  lemma SelectedEscapeStays(n: string, path: string, target: string, targets: Targets)
    ensures var tree: Tree := map[n := Dir(map[], map[])];
      var run := Wrote(map[n := Dir(map[path := LeafLink(target)], map[])]);
      && StagingLeaves(tree, run, [n], {n}, {target}, targets) == tree
      && DirectLeaves(tree, run, {n}, {target}, {n}, {n}) == run.entries
  {
    var entries: Tree := map[n := Dir(map[path := LeafLink(target)], map[])];
    assert path in entries[n].files;
    assert n in Escaped(entries, entries.Keys, {target});
  }
}
