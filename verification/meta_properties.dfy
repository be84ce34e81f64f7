/** Properties of `getMeta` and `setMeta` over several calls: the saved list
    reads back, an empty list removes the meta document, and at most one meta
    document per folder survives any sequence of calls whose queries are
    answered. */
module MetaProperties {
  import opened Base
  import Json
  import Token
  import Drive
  import opened MetaStore

  /** Drive assigns every file a non-empty id. */
  predicate IdsNonEmpty(d: Drive.Drive) {
    forall j :: 0 <= j < |d| ==> d[j].id != ""
  }

  /** A folder whose first meta document holds a serialised list loads as that list. */
  lemma GetWrittenMeta(d: Drive.Drive, s: Token.Session, folder: string, links: seq<Json.LinkEntry>,
                       k: nat, q: CallEnv, rd: CallEnv)
    requires Token.Truthy(s.accessToken)
    requires CallOk(q) && CallOk(rd)
    requires Drive.FirstMeta(d, folder) == Some(k) && d[k].id != ""
    requires Drive.Lookup(d, d[k].id).Some? && Drive.Lookup(d, d[k].id).value.content == Json.EncodeLinks(links)
    ensures GetMeta(d, s, folder, q, rd).0 == Links(links)
  {
    OkTokenAuthorizes(s, q.token);
    var s1 := Authorize(s, q.token).1;
    OkTokenAuthorizes(s1, rd.token);
    assert GetMetaFile(d, s, folder, q) == (MetaFileFound(Drive.HandleOf(d[k])), s1);
    ReadWrittenFile(d, s1, d[k].id, rd, links);
  }

  /** The session after a `setMeta` whose calls all authorize is still logged in. */
  lemma SetKeepsLogin(d: Drive.Drive, s: Token.Session, folder: string, content: seq<Json.LinkEntry>, e: SetEnv)
    requires Token.Truthy(s.accessToken)
    requires TokenOk(e.query.token) && TokenOk(e.write.token)
    ensures Token.Truthy(SetMeta(d, s, folder, content, e).session.accessToken)
  {
    OkTokenAuthorizes(s, e.query.token);
    var s1 := Authorize(s, e.query.token).1;
    OkTokenAuthorizes(s1, e.write.token);
  }

  /** With working tokens and delivered requests, `setMeta` resolves. */
  lemma SetOkResolves(d: Drive.Drive, s: Token.Session, folder: string, content: seq<Json.LinkEntry>, e: SetEnv)
    requires Token.Truthy(s.accessToken)
    requires CallOk(e.query) && CallOk(e.write)
    ensures !Threw(SetMeta(d, s, folder, content, e))
  {
    OkTokenAuthorizes(s, e.query.token);
    OkTokenAuthorizes(Authorize(s, e.query.token).1, e.write.token);
  }

  /** Storing a non-empty list and loading it again yields that list. */
  lemma SetThenGet(d: Drive.Drive, s: Token.Session, folder: string, links: seq<Json.LinkEntry>,
                   e: SetEnv, q: CallEnv, rd: CallEnv)
    requires Token.Truthy(s.accessToken)
    requires CallOk(e.query) && CallOk(e.write) && CallOk(q) && CallOk(rd)
    requires IdsNonEmpty(d) && e.newId != "" && Drive.Fresh(d, e.newId)
    requires |links| > 0
    ensures var w := SetMeta(d, s, folder, links, e);
            GetMeta(w.drive, w.session, folder, q, rd).0 == Links(links)
  {
    SetKeepsLogin(d, s, folder, links, e);
    var w := SetMeta(d, s, folder, links, e);
    match Drive.FirstMeta(d, folder) {
    case None =>
      var f := Drive.DriveFile(e.newId, Drive.MetaFileName, folder, false, Json.EncodeLinks(links));
      SetCreates(d, s, folder, links, e);
      FirstMetaOfAppendNew(d, f, folder);
      Drive.LookupAppended(d, f);
      GetWrittenMeta(w.drive, w.session, folder, links, |d|, q, rd);
    case Some(k) =>
      var id := d[k].id;
      SetUpdates(d, s, folder, links, e);
      FirstMetaOfSetContent(d, id, Json.EncodeLinks(links), folder);
      Drive.LookupAfterSetContent(d, id, Json.EncodeLinks(links));
      GetWrittenMeta(w.drive, w.session, folder, links, k, q, rd);
    }
  }

  /** With no meta document, a non-empty list is stored in a new one. */
  lemma SetCreates(d: Drive.Drive, s: Token.Session, folder: string, links: seq<Json.LinkEntry>, e: SetEnv)
    requires Token.Truthy(s.accessToken)
    requires CallOk(e.query) && CallOk(e.write)
    requires Drive.FirstMeta(d, folder).None? && |links| > 0
    ensures SetMeta(d, s, folder, links, e).drive
            == d + [Drive.DriveFile(e.newId, Drive.MetaFileName, folder, false, Json.EncodeLinks(links))]
  {
    OkTokenAuthorizes(s, e.query.token);
    OkTokenAuthorizes(Authorize(s, e.query.token).1, e.write.token);
  }

  /** With a meta document, a non-empty list replaces its content. */
  lemma SetUpdates(d: Drive.Drive, s: Token.Session, folder: string, links: seq<Json.LinkEntry>, e: SetEnv)
    requires Token.Truthy(s.accessToken)
    requires CallOk(e.query) && CallOk(e.write)
    requires Drive.FirstMeta(d, folder).Some? && |links| > 0
    ensures var id := d[Drive.FirstMeta(d, folder).value].id;
            Drive.Lookup(d, id).Some?
            && SetMeta(d, s, folder, links, e).drive == Drive.SetContent(d, id, Json.EncodeLinks(links))
  {
    OkTokenAuthorizes(s, e.query.token);
    OkTokenAuthorizes(Authorize(s, e.query.token).1, e.write.token);
    assert Drive.Lookup(d, d[Drive.FirstMeta(d, folder).value].id).Some?;
  }

  /** A meta document appended to a folder without one is its first. */
  lemma {:induction false} FirstMetaOfAppendNew(d: Drive.Drive, f: Drive.DriveFile, folder: string)
    requires Drive.FirstMeta(d, folder).None? && Drive.IsMetaOf(f, folder)
    ensures Drive.FirstMeta(d + [f], folder) == Some(|d|)
  {
    if |d| == 0 {
      assert d + [f] == [f];
    } else {
      assert (d + [f])[1..] == d[1..] + [f];
      FirstMetaOfAppendNew(d[1..], f, folder);
    }
  }

  /** Rewriting content moves no meta document. */
  lemma {:induction false} FirstMetaOfSetContent(d: Drive.Drive, id: Drive.FileId, content: string, folder: string)
    ensures Drive.FirstMeta(Drive.SetContent(d, id, content), folder) == Drive.FirstMeta(d, folder)
  {
    if |d| > 0 {
      var r := Drive.SetContent(d, id, content);
      assert r[1..] == Drive.SetContent(d[1..], id, content);
      FirstMetaOfSetContent(d[1..], id, content, folder);
    }
  }

  /** Storing the empty list leaves the folder without a meta document, so
      loading yields `[]`, provided the folder had at most one before. */
  lemma SetEmptyThenGet(d: Drive.Drive, s: Token.Session, folder: string, e: SetEnv, q: CallEnv, rd: CallEnv)
    requires Token.Truthy(s.accessToken)
    requires CallOk(e.query) && CallOk(e.write) && TokenOk(q.token)
    requires |Drive.ListMeta(d, folder)| <= 1
    ensures var w := SetMeta(d, s, folder, [], e);
            Drive.ListMeta(w.drive, folder) == []
            && GetMeta(w.drive, w.session, folder, q, rd).0 == Links([])
  {
    var w := SetMeta(d, s, folder, [], e);
    SetEmptyClears(d, s, folder, e);
    SetKeepsLogin(d, s, folder, [], e);
    Drive.ListMetaFirst(w.drive, folder);
    GetWithoutMeta(w.drive, w.session, folder, q, rd);
  }

  /** Storing the empty list deletes the folder's only meta document, if any. */
  lemma SetEmptyClears(d: Drive.Drive, s: Token.Session, folder: string, e: SetEnv)
    requires Token.Truthy(s.accessToken)
    requires CallOk(e.query) && CallOk(e.write)
    requires |Drive.ListMeta(d, folder)| <= 1
    ensures Drive.ListMeta(SetMeta(d, s, folder, [], e).drive, folder) == []
  {
    Drive.ListMetaFirst(d, folder);
    var w := SetMeta(d, s, folder, [], e);
    if Drive.FirstMeta(d, folder).Some? {
      var id := d[Drive.FirstMeta(d, folder).value].id;
      SetEmptyDeletes(d, s, folder, e);
      Drive.RemoveShrinksListing(d, id, folder);
    } else {
      OkTokenAuthorizes(s, e.query.token);
      assert w.branch == SkipEmpty;
    }
  }

  /** Storing the empty list in a folder with a meta document deletes it. */
  lemma SetEmptyDeletes(d: Drive.Drive, s: Token.Session, folder: string, e: SetEnv)
    requires Token.Truthy(s.accessToken)
    requires CallOk(e.query) && CallOk(e.write)
    requires Drive.FirstMeta(d, folder).Some?
    ensures var id := d[Drive.FirstMeta(d, folder).value].id;
            SetMeta(d, s, folder, [], e).drive == Drive.Remove(d, id)
  {
    var k := Drive.FirstMeta(d, folder).value;
    var id := d[k].id;
    OkTokenAuthorizes(s, e.query.token);
    var s1 := Authorize(s, e.query.token).1;
    OkTokenAuthorizes(s1, e.write.token);
    Drive.ListMetaFirst(d, folder);
    Drive.ListedFilesExist(d, folder, 0);
    assert GetMetaFile(d, s, folder, e.query) == (MetaFileFound(Drive.HandleOf(d[k])), s1);
    assert DeleteFile(d, s1, id, e.write).result == WriteOk;
  }

  /** A folder without a meta document loads as the empty list. */
  lemma GetWithoutMeta(d: Drive.Drive, s: Token.Session, folder: string, q: CallEnv, rd: CallEnv)
    requires Token.Truthy(s.accessToken) && TokenOk(q.token)
    requires Drive.FirstMeta(d, folder).None?
    ensures GetMeta(d, s, folder, q, rd).0 == Links([])
  {
    OkTokenAuthorizes(s, q.token);
  }

  /** One `setMeta` whose query is answered keeps every folder at no more
      than one meta document. */
  lemma SetKeepsOneMeta(d: Drive.Drive, s: Token.Session, folder: string, content: seq<Json.LinkEntry>, e: SetEnv)
    requires Drive.OneMetaPerFolder(d)
    requires e.query.transport == Delivered
    ensures Drive.OneMetaPerFolder(SetMeta(d, s, folder, content, e).drive)
  {
    var w := SetMeta(d, s, folder, content, e);
    if w.written == Some(WriteOk) {
      match w.branch
      case CreateNew =>
        var f := Drive.DriveFile(e.newId, Drive.MetaFileName, folder, false, Json.EncodeLinks(content));
        assert Authorize(s, e.query.token).0.Authorized?;
        SetMetaCreated(d, s, folder, content, e);
        AppendKeepsOneMeta(d, f, folder);
      case DeleteExisting(id) =>
        SetMetaDeleted(d, s, folder, content, e);
        RemoveKeepsOneMeta(d, id);
      case UpdateExisting(id) =>
        SetMetaUpdated(d, s, folder, content, e);
    }
  }

  /** Adding a file to a folder without a meta document keeps the invariant. */
  lemma AppendKeepsOneMeta(d: Drive.Drive, f: Drive.DriveFile, folder: string)
    requires Drive.OneMetaPerFolder(d)
    requires Drive.FirstMeta(d, folder).None? && f.parent == folder
    ensures Drive.OneMetaPerFolder(d + [f])
  {
    Drive.ListMetaFirst(d, folder);
    forall other: string
      ensures |Drive.ListMeta(d + [f], other)| <= 1
    {
      Drive.AppendListing(d, f, other);
    }
  }

  /** Removing a file keeps the invariant. */
  lemma RemoveKeepsOneMeta(d: Drive.Drive, id: Drive.FileId)
    requires Drive.OneMetaPerFolder(d)
    ensures Drive.OneMetaPerFolder(Drive.Remove(d, id))
  {
    forall other: string
      ensures |Drive.ListMeta(Drive.Remove(d, id), other)| <= 1
    {
      Drive.RemoveShrinksListing(d, id, other);
    }
  }

  /** A successful create adds exactly one meta document. */
  lemma SetMetaCreated(d: Drive.Drive, s: Token.Session, folder: string, content: seq<Json.LinkEntry>, e: SetEnv)
    requires SetMeta(d, s, folder, content, e).branch == CreateNew
    requires SetMeta(d, s, folder, content, e).written == Some(WriteOk)
    ensures SetMeta(d, s, folder, content, e).drive
            == d + [Drive.DriveFile(e.newId, Drive.MetaFileName, folder, false, Json.EncodeLinks(content))]
  {
  }

  /** A successful delete removes exactly the document's id. */
  lemma SetMetaDeleted(d: Drive.Drive, s: Token.Session, folder: string, content: seq<Json.LinkEntry>, e: SetEnv)
    requires SetMeta(d, s, folder, content, e).branch.DeleteExisting?
    requires SetMeta(d, s, folder, content, e).written == Some(WriteOk)
    ensures var w := SetMeta(d, s, folder, content, e);
            w.drive == Drive.Remove(d, w.branch.id)
  {
  }

  /** A successful update changes no query answer. */
  lemma SetMetaUpdated(d: Drive.Drive, s: Token.Session, folder: string, content: seq<Json.LinkEntry>, e: SetEnv)
    requires SetMeta(d, s, folder, content, e).branch.UpdateExisting?
    requires SetMeta(d, s, folder, content, e).written == Some(WriteOk)
    ensures forall other :: Drive.ListMeta(SetMeta(d, s, folder, content, e).drive, other) == Drive.ListMeta(d, other)
  {
  }

  /** One call of a sequence of `setMeta` calls, each awaited before the next. */
  datatype SetRequest = SetRequest(folder: string, content: seq<Json.LinkEntry>, env: SetEnv)

  function RunSets(d: Drive.Drive, s: Token.Session, reqs: seq<SetRequest>): (Drive.Drive, Token.Session)
    decreases |reqs|
  {
    if |reqs| == 0 then (d, s)
    else
      var w := SetMeta(d, s, reqs[0].folder, reqs[0].content, reqs[0].env);
      RunSets(w.drive, w.session, reqs[1..])
  }

  /** Any sequence of `setMeta` calls whose queries are all answered leaves
      at most one meta document per folder. */
  lemma {:induction false} RunKeepsOneMeta(d: Drive.Drive, s: Token.Session, reqs: seq<SetRequest>)
    requires Drive.OneMetaPerFolder(d)
    requires forall i :: 0 <= i < |reqs| ==> reqs[i].env.query.transport == Delivered
    ensures Drive.OneMetaPerFolder(RunSets(d, s, reqs).0)
    decreases |reqs|
  {
    if |reqs| > 0 {
      var w := SetMeta(d, s, reqs[0].folder, reqs[0].content, reqs[0].env);
      SetKeepsOneMeta(d, s, reqs[0].folder, reqs[0].content, reqs[0].env);
      RunKeepsOneMeta(w.drive, w.session, reqs[1..]);
    }
  }

  /** A query that fails is taken for "no meta document": a non-empty list is
      then stored in a second meta document, which later loads do not see,
      since they read the first. */
  lemma LostQueryDuplicates(d: Drive.Drive, s: Token.Session, folder: string, content: seq<Json.LinkEntry>, e: SetEnv)
    requires Token.Truthy(s.accessToken)
    requires TokenOk(e.query.token) && e.query.transport == Lost && CallOk(e.write)
    requires |Drive.ListMeta(d, folder)| == 1 && |content| > 0
    ensures var w := SetMeta(d, s, folder, content, e);
            w.branch == CreateNew
            && |Drive.ListMeta(w.drive, folder)| == 2
            && !Drive.OneMetaPerFolder(w.drive)
            && Drive.FirstMeta(w.drive, folder) == Drive.FirstMeta(d, folder)
  {
    var f := Drive.DriveFile(e.newId, Drive.MetaFileName, folder, false, Json.EncodeLinks(content));
    LostQueryCreates(d, s, folder, content, e);
    AppendDuplicates(d, f, folder);
  }

  /** A lost query with working tokens leads to a create. */
  lemma LostQueryCreates(d: Drive.Drive, s: Token.Session, folder: string, content: seq<Json.LinkEntry>, e: SetEnv)
    requires Token.Truthy(s.accessToken)
    requires TokenOk(e.query.token) && e.query.transport == Lost && CallOk(e.write)
    requires |content| > 0
    ensures var w := SetMeta(d, s, folder, content, e);
            w.branch == CreateNew
            && w.drive == d + [Drive.DriveFile(e.newId, Drive.MetaFileName, folder, false, Json.EncodeLinks(content))]
  {
    OkTokenAuthorizes(s, e.query.token);
    OkTokenAuthorizes(Authorize(s, e.query.token).1, e.write.token);
  }

  /** A second meta document appended to a folder that has one. */
  lemma AppendDuplicates(d: Drive.Drive, f: Drive.DriveFile, folder: string)
    requires |Drive.ListMeta(d, folder)| == 1 && Drive.IsMetaOf(f, folder)
    ensures |Drive.ListMeta(d + [f], folder)| == 2
    ensures !Drive.OneMetaPerFolder(d + [f])
    ensures Drive.FirstMeta(d + [f], folder) == Drive.FirstMeta(d, folder)
  {
    Drive.AppendListing(d, f, folder);
    Drive.ListMetaFirst(d, folder);
    FirstMetaOfAppend(d, f, folder);
  }

  /** Appending keeps an existing first meta document first. */
  lemma {:induction false} FirstMetaOfAppend(d: Drive.Drive, f: Drive.DriveFile, folder: string)
    requires Drive.FirstMeta(d, folder).Some?
    ensures Drive.FirstMeta(d + [f], folder) == Drive.FirstMeta(d, folder)
  {
    assert (d + [f])[1..] == d[1..] + [f];
    if !Drive.IsMetaOf(d[0], folder) {
      FirstMetaOfAppend(d[1..], f, folder);
    }
  }
}
