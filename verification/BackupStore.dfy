/** The remote store: one index, one manifest and named archives.  Each operation replaces or removes one
    object at once; the ghost trace records every state an interruption could leave behind. */
module BackupStore {
  import opened Options
  import opened BackupIndex

  datatype Member = Member(name: string, content: Content)
  type Archive = seq<Member>

  /** A collision-free hash of archive bytes; archives are normalised, so equal members give equal bytes. */
  datatype ArchiveDigest = ArchiveSha256(members: Archive)

  datatype Meta = Meta(sha256: ArchiveDigest, files: nat, rawBytes: nat)
  datatype Manifest = Manifest(archives: map<string, Meta>, files: int, rawBytes: int)

  datatype Remote = Remote(index: Option<seq<IndexLine>>, manifest: Option<Manifest>, archives: map<string, Archive>)
  {
    function Lines(): seq<IndexLine> {
      if index.Some? then index.value else []
    }

    function Listed(): map<string, Meta> {
      if manifest.Some? then manifest.value.archives else map[]
    }
  }

  /** `archive` holds `member` with that hash (and no other member of that name). */
  ghost predicate Has(archive: Archive, member: string, sha256: Digest) {
    && (exists m :: m in archive && m.name == member)
    && (forall m | m in archive && m.name == member :: Sha256(m.content) == sha256)
  }

  ghost predicate Stored(archives: map<string, Archive>, e: IndexLine) {
    e.archive in archives && Has(archives[e.archive], e.member, e.sha256)
  }

  /** Every index line names an archive that is present and holds that member with that hash. */
  ghost predicate Intact(r: Remote) {
    forall e | e in r.Lines() :: Stored(r.archives, e)
  }

  /** Every archive an index line names is listed in the manifest with its true hash. */
  ghost predicate Listing(r: Remote) {
    forall e | e in r.Lines() ::
      e.archive in r.archives && e.archive in r.Listed() &&
        r.Listed()[e.archive].sha256 == ArchiveSha256(r.archives[e.archive])
  }

  class RemoteStore {
    var index: Option<seq<IndexLine>>
    var manifest: Option<Manifest>
    var archives: map<string, Archive>
    ghost var trace: seq<Remote>

    function View(): Remote
      reads this
    {
      Remote(index, manifest, archives)
    }

    method PutIndex(lines: seq<IndexLine>)
      modifies this
      ensures View() == old(View()).(index := Some(lines))
      ensures trace == old(trace) + [View()]
    {
      index := Some(lines);
      trace := trace + [View()];
    }

    method PutManifest(m: Manifest)
      modifies this
      ensures View() == old(View()).(manifest := Some(m))
      ensures trace == old(trace) + [View()]
    {
      manifest := Some(m);
      trace := trace + [View()];
    }

    method PutArchive(name: string, archive: Archive)
      modifies this
      ensures View() == old(View()).(archives := old(archives)[name := archive])
      ensures trace == old(trace) + [View()]
    {
      archives := archives[name := archive];
      trace := trace + [View()];
    }

    method DeleteArchive(name: string)
      modifies this
      ensures View() == old(View()).(archives := old(archives) - {name})
      ensures trace == old(trace) + [View()]
    {
      archives := archives - {name};
      trace := trace + [View()];
    }

    /** Upload unless present; a present archive with other bytes is an error and is left alone. */
    method UploadVerified(name: string, archive: Archive) returns (ok: bool)
      modifies this
      ensures ok <==> name !in old(archives) || old(archives)[name] == archive
      ensures old(trace) <= trace && forall i | |old(trace)| <= i < |trace| :: trace[i] == View()
      ensures index == old(index) && manifest == old(manifest)
      ensures archives == if name in old(archives) then old(archives) else old(archives)[name := archive]
    {
      if name !in archives {
        PutArchive(name, archive);
      }
      ok := ArchiveSha256(archives[name]) == ArchiveSha256(archive);
    }
  }

  /** Growing the set of archives without touching those present keeps lines stored. */
  ghost predicate Grows(before: map<string, Archive>, after: map<string, Archive>) {
    forall name | name in before :: name in after && after[name] == before[name]
  }

  lemma StoredGrows(before: map<string, Archive>, after: map<string, Archive>, e: IndexLine)
    requires Grows(before, after) && Stored(before, e)
    ensures Stored(after, e)
  {
  }

  lemma IntactGrows(r: Remote, archives: map<string, Archive>)
    requires Intact(r) && Grows(r.archives, archives)
    ensures Intact(r.(archives := archives))
  {
    forall e | e in r.Lines() ensures Stored(archives, e) {
      StoredGrows(r.archives, archives, e);
    }
  }
}
