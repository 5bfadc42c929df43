/** Restoring a state: current lines of the selected paths, archive by archive, every byte checked. */
module BackupRestore {
  import opened BackupIndex
  import opened BackupStore
  import opened BackupPlace
  import opened NameOrder

  type Tree = map<string, Content>

  // ----- what restoring means -----

  /** The tree already holds what the line says. */
  predicate AlreadyThere(dest: Tree, e: IndexLine) {
    e.path in dest && |dest[e.path]| == e.size && Sha256(dest[e.path]) == e.sha256
  }

  /** The line can be restored: archive present, listed with its true hash, member present with the right hash. */
  ghost predicate Restorable(r: Remote, e: IndexLine) {
    ListedRight(r.Listed(), r.archives, e.archive) && Has(r.archives[e.archive], e.member, e.sha256)
  }

  /** Lines that still have to be written. */
  ghost predicate Outstanding(latest: map<string, IndexLine>, selected: string -> bool, dest: Tree, e: IndexLine) {
    e.path in latest && latest[e.path] == e && selected(e.path) && !AlreadyThere(dest, e)
  }

  /** `after` is `before` with exactly the given lines' contents written. */
  ghost predicate Wrote(before: Tree, after: Tree, lines: seq<IndexLine>) {
    && (forall e | e in lines :: e.path in after && after[e.path] == e.sha256.content)
    && (forall p | (forall e | e in lines :: e.path != p) :: SameAt(before, after, p))
  }

  predicate SameAt(before: Tree, after: Tree, p: string) {
    (p in before <==> p in after) && (p in before ==> before[p] == after[p])
  }

  /** Nothing wrong was ever written: each path is untouched or holds the content its line names. */
  ghost predicate NothingWrong(before: Tree, after: Tree, lines: seq<IndexLine>) {
    forall p :: SameAt(before, after, p) || (p in after && exists e :: e in lines && e.path == p && after[p] == e.sha256.content)
  }

  ghost predicate OnePerPath(lines: seq<IndexLine>) {
    forall e, f | e in lines && f in lines && e.path == f.path :: e == f
  }

  // ----- one archive -----

  /** At `p` the member either changed nothing or wrote its content for an entry that names it rightly. */
  ghost predicate MemberStep(m: Member, lines: seq<IndexLine>, before: Tree, after: Tree, p: string) {
    || SameAt(before, after, p)
    || (p in after && after[p] == m.content
        && exists e :: e in lines && e.member == m.name && e.path == p && Sha256(m.content) == e.sha256)
  }

  /** Check and write every wanted entry of one member. */
  method WriteMember(m: Member, lines: seq<IndexLine>, dest: Tree) returns (ok: bool, dest': Tree)
    ensures ok <==> forall e | e in lines && e.member == m.name :: Sha256(m.content) == e.sha256
    ensures ok ==> forall e | e in lines && e.member == m.name :: e.path in dest' && dest'[e.path] == m.content
    ensures forall p :: MemberStep(m, lines, dest, dest', p)
  {
    ok, dest' := true, dest;
    for n := 0 to |lines|
      invariant forall i | 0 <= i < n && lines[i].member == m.name :: Sha256(m.content) == lines[i].sha256
      invariant forall i | 0 <= i < n && lines[i].member == m.name ::
        lines[i].path in dest' && dest'[lines[i].path] == m.content
      invariant forall p :: MemberStep(m, lines, dest, dest', p)
    {
      assert lines[n] in lines;
      if lines[n].member == m.name {
        if Sha256(m.content) != lines[n].sha256 {
          return false, dest';
        }
        ghost var prior := dest';
        dest' := dest'[lines[n].path := m.content];
        forall p ensures MemberStep(m, lines, dest, dest', p) {
          assert MemberStep(m, lines, dest, prior, p);
        }
      }
    }
  }

  ghost predicate Named(archive: Archive, k: int, name: string)
    requires k <= |archive|
  {
    exists j :: 0 <= j < k && archive[j].name == name
  }

  /** After the first `k` members: exactly the entries they carry have been written, rightly. */
  ghost predicate Extracted(archive: Archive, k: int, lines: seq<IndexLine>, before: Tree, after: Tree)
    requires 0 <= k <= |archive|
  {
    && (forall j, e | 0 <= j < k && e in lines && e.member == archive[j].name :: Sha256(archive[j].content) == e.sha256)
    && (forall e | e in lines && Named(archive, k, e.member) :: e.path in after && after[e.path] == e.sha256.content)
    && (forall p | (forall e | e in lines && e.path == p :: !Named(archive, k, e.member)) :: SameAt(before, after, p))
  }

  lemma ExtractStep(archive: Archive, k: nat, lines: seq<IndexLine>, before: Tree, now: Tree, after: Tree)
    requires k < |archive| && OnePerPath(lines) && Extracted(archive, k, lines, before, now)
    requires forall e | e in lines && e.member == archive[k].name ::
      Sha256(archive[k].content) == e.sha256 && e.path in after && after[e.path] == archive[k].content
    requires forall p :: MemberStep(archive[k], lines, now, after, p)
    ensures Extracted(archive, k + 1, lines, before, after)
  {
    NamedStep(archive, k);
    forall e | e in lines && Named(archive, k + 1, e.member) ensures e.path in after && after[e.path] == e.sha256.content {
      assert MemberStep(archive[k], lines, now, after, e.path);
    }
    forall p | (forall e | e in lines && e.path == p :: !Named(archive, k + 1, e.member)) ensures SameAt(before, after, p) {
      assert MemberStep(archive[k], lines, now, after, p);
      assert forall e | e in lines && e.path == p :: !Named(archive, k, e.member);
      assert SameAt(before, now, p);
    }
  }

  method Extract(archive: Archive, lines: seq<IndexLine>, dest: Tree) returns (ok: bool, dest': Tree)
    requires OnePerPath(lines)
    ensures ok <==> forall e | e in lines :: Has(archive, e.member, e.sha256)
    ensures ok ==> Wrote(dest, dest', lines)
    ensures NothingWrong(dest, dest', lines)
  {
    dest' := dest;
    var found: set<string> := {};
    for k := 0 to |archive|
      invariant Extracted(archive, k, lines, dest, dest')
      invariant forall name :: name in found <==> Named(archive, k, name)
      invariant NothingWrong(dest, dest', lines)
    {
      var good, written := WriteMember(archive[k], lines, dest');
      WrittenIsRight(archive[k], lines, dest, dest', written);
      if !good {
        MismatchRefutes(archive, k, lines);
        return false, written;
      }
      ExtractStep(archive, k, lines, dest, dest', written);
      NamedStep(archive, k);
      found := found + {archive[k].name};
      dest' := written;
    }
    ok := forall e | e in lines :: e.member in found;
    ExtractedAll(archive, lines, dest, dest', found, ok);
  }

  lemma NamedStep(archive: Archive, k: nat)
    requires k < |archive|
    ensures forall name :: Named(archive, k + 1, name) <==> Named(archive, k, name) || archive[k].name == name
  {
    forall name ensures Named(archive, k + 1, name) <==> Named(archive, k, name) || archive[k].name == name {
      if archive[k].name == name {
        assert archive[k].name == name && 0 <= k < k + 1;
      }
      if Named(archive, k, name) {
        var j :| 0 <= j < k && archive[j].name == name;
        assert archive[j].name == name && 0 <= j < k + 1;
      }
    }
  }

  lemma WrittenIsRight(m: Member, lines: seq<IndexLine>, dest: Tree, now: Tree, after: Tree)
    requires NothingWrong(dest, now, lines)
    requires forall p :: MemberStep(m, lines, now, after, p)
    ensures NothingWrong(dest, after, lines)
  {
    forall p ensures SameAt(dest, after, p) || (p in after && exists e :: e in lines && e.path == p && after[p] == e.sha256.content) {
      assert MemberStep(m, lines, now, after, p);
      if !SameAt(now, after, p) {
        var e :| e in lines && e.member == m.name && e.path == p && after[p] == m.content &&
          Sha256(m.content) == e.sha256;
        assert after[p] == e.sha256.content;
      }
    }
  }

  lemma MismatchRefutes(archive: Archive, k: nat, lines: seq<IndexLine>)
    requires k < |archive| && exists e ::
      e in lines && e.member == archive[k].name && Sha256(archive[k].content) != e.sha256
    ensures exists e :: e in lines && !Has(archive, e.member, e.sha256)
  {
    var e :| e in lines && e.member == archive[k].name && Sha256(archive[k].content) != e.sha256;
    assert archive[k] in archive;
  }

  lemma ExtractedAll(archive: Archive, lines: seq<IndexLine>, dest: Tree, after: Tree, found: set<string>, ok: bool)
    requires Extracted(archive, |archive|, lines, dest, after)
    requires forall name :: name in found <==> Named(archive, |archive|, name)
    requires ok <==> forall e | e in lines :: e.member in found
    ensures ok <==> forall e | e in lines :: Has(archive, e.member, e.sha256)
    ensures ok ==> Wrote(dest, after, lines)
  {
    forall e | e in lines ensures e.member in found <==> Has(archive, e.member, e.sha256) {
      if e.member in found {
        var j :| 0 <= j < |archive| && archive[j].name == e.member;
        assert archive[j] in archive;
        forall m | m in archive && m.name == e.member ensures Sha256(m.content) == e.sha256 {
          var i :| 0 <= i < |archive| && archive[i] == m;
        }
      }
      if Has(archive, e.member, e.sha256) {
        var m :| m in archive && m.name == e.member;
        var j :| 0 <= j < |archive| && archive[j] == m;
        assert archive[j].name == e.member;
      }
    }
  }

  // ----- the whole restore -----

  /** Exactly the outstanding lines, each once. */
  ghost predicate TodoList(latest: map<string, IndexLine>, selected: string -> bool, dest: Tree, todo: seq<IndexLine>) {
    forall e :: e in todo <==> Outstanding(latest, selected, dest, e)
  }

  method SelectLines(latest: map<string, IndexLine>, selected: string -> bool,
      dest: Tree) returns (todo: seq<IndexLine>)
    requires forall p | p in latest :: latest[p].path == p
    ensures TodoList(latest, selected, dest, todo)
  {
    todo := [];
    var rest := latest.Keys;
    while rest != {}
      invariant rest <= latest.Keys
      invariant forall e :: e in todo <==> Outstanding(latest, selected, dest, e) && e.path !in rest
      decreases |rest|
    {
      var p :| p in rest;
      ghost var before, prior := rest, todo;
      rest := rest - {p};
      if selected(p) && !AlreadyThere(dest, latest[p]) {
        todo := todo + [latest[p]];
      }
      forall e ensures e in todo <==> Outstanding(latest, selected, dest, e) && e.path !in rest {
        assert e in prior <==> Outstanding(latest, selected, dest, e) && e.path !in before;
      }
    }
  }

  function OfArchive(todo: seq<IndexLine>, archive: string): (lines: seq<IndexLine>)
    ensures forall e :: e in lines <==> e in todo && e.archive == archive
  {
    if todo == [] then []
    else
      var rest := OfArchive(todo[1..], archive);
      assert todo == [todo[0]] + todo[1..];
      if todo[0].archive == archive then [todo[0]] + rest else rest
  }

  /** After some archives: their lines are written, nothing else has changed. */
  ghost predicate Progress(todo: seq<IndexLine>, done: set<string>, before: Tree, after: Tree) {
    && (forall e | e in todo && e.archive in done :: e.path in after && after[e.path] == e.sha256.content)
    && (forall p | (forall e | e in todo && e.path == p :: e.archive !in done) :: SameAt(before, after, p))
  }

  lemma ProgressStep(todo: seq<IndexLine>, done: set<string>, archive: string, before: Tree, now: Tree, after: Tree)
    requires OnePerPath(todo) && Progress(todo, done, before, now) && Wrote(now, after, OfArchive(todo, archive))
    ensures Progress(todo, done + {archive}, before, after)
  {
    var lines := OfArchive(todo, archive);
    forall e | e in todo && e.archive in done + {archive} ensures e.path in after && after[e.path] == e.sha256.content {
      if e.archive == archive {
        assert e in lines;
      } else {
        assert forall f | f in lines :: f.path != e.path;
        assert SameAt(now, after, e.path);
      }
    }
    forall p | (forall e | e in todo && e.path == p :: e.archive !in done + {archive}) ensures SameAt(before, after, p) {
      assert forall f | f in lines :: f.path != p;
      assert SameAt(now, after, p) && SameAt(before, now, p);
    }
  }

  /** The tree after a successful restore: every selected current path holds exactly the content its line
      names, every other path is untouched. */
  ghost predicate Restored(latest: map<string, IndexLine>, selected: string -> bool, before: Tree, after: Tree) {
    && (forall p | p in latest && selected(p) :: p in after && after[p] == latest[p].sha256.content)
    && (forall p | p !in latest || !selected(p) :: SameAt(before, after, p))
  }

  lemma WroteIsRestored(latest: map<string, IndexLine>, selected: string -> bool, todo: seq<IndexLine>, before: Tree,
      after: Tree)
    requires (forall p | p in latest :: latest[p].path == p) && TodoList(latest, selected, before, todo)
    requires Wrote(before, after, todo)
    ensures Restored(latest, selected, before, after)
  {
    forall p | p in latest && selected(p) ensures p in after && after[p] == latest[p].sha256.content {
      var e := latest[p];
      if AlreadyThere(before, e) {
        assert forall f | f in todo :: f.path != p;
        assert SameAt(before, after, p);
      } else {
        assert Outstanding(latest, selected, before, e);
        assert e in todo;
      }
    }
    forall p | p !in latest || !selected(p) ensures SameAt(before, after, p) {
      assert forall f | f in todo :: f.path != p;
    }
  }

  /** Fetch one archive, check it against the manifest and extract its lines. */
  method RestoreArchive(r: Remote, archive: string, lines: seq<IndexLine>, dest: Tree) returns (ok: bool, dest': Tree)
    requires OnePerPath(lines) && (forall e | e in lines :: e.archive == archive) && lines != []
    ensures ok <==> forall e | e in lines :: Restorable(r, e)
    ensures ok ==> Wrote(dest, dest', lines)
    ensures NothingWrong(dest, dest', lines)
  {
    assert lines[0] in lines;
    if archive !in r.archives || archive !in r.Listed() || r.Listed()[archive].sha256 != ArchiveSha256(r.archives[archive]) {
      assert !Restorable(r, lines[0]);
      return false, dest;
    }
    ok, dest' := Extract(r.archives[archive], lines, dest);
  }

  ghost predicate AllRestorable(r: Remote, lines: seq<IndexLine>) {
    forall e | e in lines :: Restorable(r, e)
  }

  ghost predicate DoneRestorable(r: Remote, todo: seq<IndexLine>, done: set<string>) {
    forall e | e in todo && e.archive in done :: Restorable(r, e)
  }

  lemma DoneStep(r: Remote, todo: seq<IndexLine>, done: set<string>, archive: string)
    requires DoneRestorable(r, todo, done) && AllRestorable(r, OfArchive(todo, archive))
    ensures DoneRestorable(r, todo, done + {archive})
  {
    forall e | e in todo && e.archive in done + {archive} ensures Restorable(r, e) {
      if e.archive == archive {
        assert e in OfArchive(todo, archive);
      }
    }
  }

  lemma ProgressIsWrote(todo: seq<IndexLine>, done: set<string>, before: Tree, after: Tree)
    requires (forall e | e in todo :: e.archive in done) && Progress(todo, done, before, after)
    ensures Wrote(before, after, todo)
  {
  }

  lemma TodoOnePerPath(latest: map<string, IndexLine>, selected: string -> bool, dest: Tree, todo: seq<IndexLine>)
    requires TodoList(latest, selected, dest, todo)
    ensures OnePerPath(todo)
  {
  }

  /** Archive by archive in name order; stops at the first one that fails. */
  method RestoreTodo(r: Remote, todo: seq<IndexLine>, dest: Tree) returns (ok: bool, dest': Tree)
    requires OnePerPath(todo)
    ensures ok <==> AllRestorable(r, todo)
    ensures ok ==> Wrote(dest, dest', todo)
    ensures NothingWrong(dest, dest', todo)
  {
    var names := SortNames(set e | e in todo :: e.archive);
    dest' := dest;
    ghost var done: set<string> := {};
    for n := 0 to |names|
      invariant forall name :: name in done <==> name in names[..n]
      invariant Progress(todo, done, dest, dest')
      invariant DoneRestorable(r, todo, done) && NothingWrong(dest, dest', todo)
    {
      var part := NextPart(todo, names, n);
      var good, next := RestoreArchive(r, names[n], part, dest');
      NothingWrongJoins(todo, part, dest, dest', next);
      if !good {
        return false, next;
      }
      ProgressStep(todo, done, names[n], dest, dest', next);
      DoneStep(r, todo, done, names[n]);
      done := done + {names[n]};
      dest' := next;
    }
    assert names[..|names|] == names;
    ProgressIsWrote(todo, done, dest, dest');
    ok := true;
  }

  lemma NothingWrongJoins(todo: seq<IndexLine>, part: seq<IndexLine>, before: Tree, now: Tree, after: Tree)
    requires NothingWrong(before, now, todo) && NothingWrong(now, after, part) && forall e | e in part :: e in todo
    ensures NothingWrong(before, after, todo)
  {
    forall p ensures SameAt(before, after, p) || (p in after && exists e :: e in todo && e.path == p && after[p] == e.sha256.content) {
      if !SameAt(now, after, p) {
        var e :| e in part && e.path == p && after[p] == e.sha256.content;
        assert e in todo;
      } else if !SameAt(before, now, p) {
        var e :| e in todo && e.path == p && now[p] == e.sha256.content;
      }
    }
  }

  method NextPart(todo: seq<IndexLine>, names: seq<string>, n: nat) returns (part: seq<IndexLine>)
    requires n < |names| && forall name | name in names :: exists e :: e in todo && e.archive == name
    ensures part == OfArchive(todo, names[n]) && part != []
  {
    assert names[n] in names;
    part := OfArchive(todo, names[n]);
    ghost var e :| e in todo && e.archive == names[n];
    assert e in part;
  }

  /** However far a restore came: each path is untouched, or selected and holding the content its current line names. */
  ghost predicate PartlyRestored(latest: map<string, IndexLine>, selected: string -> bool, before: Tree, after: Tree) {
    forall p :: SameAt(before, after, p) || (p in latest && selected(p) && p in after && after[p] == latest[p].sha256.content)
  }

  lemma NothingWrongIsPartly(latest: map<string, IndexLine>, selected: string -> bool, todo: seq<IndexLine>,
      before: Tree, after: Tree)
    requires TodoList(latest, selected, before, todo) && NothingWrong(before, after, todo)
    ensures PartlyRestored(latest, selected, before, after)
  {
  }

  /** Restore the selected paths of the state `lines`.  It succeeds exactly when every line still to be written
      is restorable, and success means the tree holds exactly the named contents.  A failed restore has written
      nothing wrong. */
  method Restore(r: Remote, lines: seq<IndexLine>, selected: string -> bool, dest: Tree) returns (ok: bool, dest': Tree)
    ensures ok <==> forall e | Outstanding(Latest(lines), selected, dest, e) :: Restorable(r, e)
    ensures ok ==> Restored(Latest(lines), selected, dest, dest')
    ensures PartlyRestored(Latest(lines), selected, dest, dest')
  {
    var latest := Latest(lines);
    LatestMembers(lines);
    var todo := SelectLines(latest, selected, dest);
    TodoOnePerPath(latest, selected, dest, todo);
    ok, dest' := RestoreTodo(r, todo, dest);
    NothingWrongIsPartly(latest, selected, todo, dest, dest');
    if ok {
      WroteIsRestored(latest, selected, todo, dest, dest');
    }
  }

  // ----- round trip -----

  /** A remote that is intact and fully listed restores everything. */
  lemma IntactRestores(r: Remote, lines: seq<IndexLine>, e: IndexLine)
    requires Intact(r) && Listing(r) && lines <= r.Lines()
    requires e.path in Latest(lines) && Latest(lines)[e.path] == e
    ensures Restorable(r, e)
  {
    LatestMembers(lines);
    assert e in lines;
    assert e in r.Lines();
  }
}
