/** The client side of the meta-document store: `getMetaFile`, `readFile`,
    `createJSONFile`, `updateJSONFile`, `deleteFile`, and the two operations the
    overlay uses, `getMeta` and `setMeta`. Every helper obtains its own token,
    so each call gets its own token environment and its own transport; the
    Drive and the stored session are threaded through explicitly. */
module MetaStore {
  import opened Base
  import Json
  import Multipart
  import Token
  import Drive

  /** Whether a files-API request reaches the server and a 2xx answer comes
      back (`Delivered`), or the fetch throws or the answer is not 2xx (`Lost`).
      A lost request changes nothing on the server. */
  datatype Transport = Delivered | Lost

  /** The environment of one helper call: its `getToken` and its fetch. */
  datatype CallEnv = CallEnv(token: Token.TokenEnv, transport: Transport)

  /** What a helper makes of `await getToken()`: a usable token, a falsy one
      (`if (!token) return { error: 'noauth' }`), or a rejection, which
      propagates to the caller. */
  datatype Auth = Authorized(token: string) | NoAuth | AuthThrew

  /** `await getToken()` followed by the `noauth` test, on the session it
      reads and writes back. */
  function Authorize(s: Token.Session, env: Token.TokenEnv): (Auth, Token.Session) {
    var t := Token.GetTokenSettled(s, env);
    match t.result
    case Resolved(tok) => (if tok == "" then NoAuth else Authorized(tok), t.session)
    case ResolvedNull => (NoAuth, t.session)
    case _ => (AuthThrew, t.session)
  }

  /** What a helper's `getToken` step can end in, in terms of the stored
      session and the refresh endpoint. */
  lemma AuthorizeOutcome(s: Token.Session, env: Token.TokenEnv)
    // not logged in: noauth, and storage is left alone
    ensures !Token.Truthy(s.accessToken) ==> Authorize(s, env) == (NoAuth, s)
    // a rejection exactly when a refresh is due and the endpoint does not grant one
    ensures Authorize(s, env).0.AuthThrew? <==>
              Token.Truthy(s.accessToken) && Token.ExpiresSoon(s, env.nowMs) && !env.refresh.RefreshOk?
    // noauth for a logged-in session only when the endpoint grants an empty token
    ensures Authorize(s, env).0.NoAuth? && Token.Truthy(s.accessToken) ==>
              Token.ExpiresSoon(s, env.nowMs) && env.refresh.RefreshOk? && env.refresh.accessToken == ""
    // the token used is the one left in storage
    ensures Authorize(s, env).0.Authorized? ==>
              Authorize(s, env).1.accessToken == Some(Authorize(s, env).0.token) && Authorize(s, env).0.token != ""
  {
  }

  /** A refresh, should one be needed, succeeds with a non-empty token. */
  predicate TokenOk(env: Token.TokenEnv) {
    env.refresh.RefreshOk? && env.refresh.accessToken != ""
  }

  predicate CallOk(c: CallEnv) {
    TokenOk(c.token) && c.transport == Delivered
  }

  /** A logged-in session with a well-behaved token endpoint authorizes, and
      stays logged in. */
  lemma OkTokenAuthorizes(s: Token.Session, env: Token.TokenEnv)
    requires Token.Truthy(s.accessToken) && TokenOk(env)
    ensures Authorize(s, env).0.Authorized?
    ensures Token.Truthy(Authorize(s, env).1.accessToken)
  {
  }

  /** After a helper was authorized, the next helper can only see a falsy
      token if the refresh endpoint handed back an empty one. */
  lemma AuthorizedStaysAuthorized(s: Token.Session, env1: Token.TokenEnv, env2: Token.TokenEnv)
    requires Authorize(s, env1).0.Authorized?
    ensures Authorize(Authorize(s, env1).1, env2).0.NoAuth? ==>
              env2.refresh.RefreshOk? && env2.refresh.accessToken == ""
  {
    Token.ResolvedTokenIsStored(s, env1);
    Token.SettledTokenPersists(s, env1, env2);
  }

  // ---------------------------------------------------------------------------
  // getMetaFile

  datatype MetaFileResult =
    | MetaFileNoAuth                          // `{ error: 'noauth' }`
    | MetaFileFound(handle: Drive.FileHandle) // `data.files[0]`
    | MetaFileNull                            // nothing found, or the request failed
    | MetaFileThrew                           // `getToken` rejected

  /** `getMetaFile(folderId)`: the first meta document the query lists. */
  function GetMetaFile(d: Drive.Drive, s: Token.Session, folder: string, c: CallEnv): (r: (MetaFileResult, Token.Session))
    ensures r.1 == Authorize(s, c.token).1
    ensures !Token.Truthy(s.accessToken) ==> r.0 == MetaFileNoAuth && r.1 == s
    ensures r.0.MetaFileNoAuth? <==> Authorize(s, c.token).0.NoAuth?
    ensures r.0.MetaFileFound? <==>
              Authorize(s, c.token).0.Authorized? && c.transport == Delivered && Drive.FirstMeta(d, folder).Some?
    ensures r.0.MetaFileFound? ==> r.0.handle == Drive.HandleOf(d[Drive.FirstMeta(d, folder).value])
  {
    Drive.ListMetaFirst(d, folder);
    var auth := Authorize(s, c.token).0;
    var s1 := Authorize(s, c.token).1;
    match auth
    case NoAuth => (MetaFileNoAuth, s1)
    case AuthThrew => (MetaFileThrew, s1)
    case Authorized(_) =>
      if c.transport != Delivered then (MetaFileNull, s1)
      else
        var files := Drive.ListMeta(d, folder);
        assert |files| > 0 <==> Drive.FirstMeta(d, folder).Some?;
        (if |files| > 0 then MetaFileFound(files[0]) else MetaFileNull, s1)
  }

  // ---------------------------------------------------------------------------
  // readFile

  datatype ReadResult =
    | ReadNoAuth                          // `{ error: 'noauth' }`
    | ReadLinks(links: seq<Json.LinkEntry>)
    | ReadOther                           // `undefined`, or JSON that is not a link list
    | ReadThrew

  /** `readFile(fileId)`: the file's content, parsed as a link list. */
  function ReadFile(d: Drive.Drive, s: Token.Session, id: Drive.FileId, c: CallEnv): (r: (ReadResult, Token.Session))
    ensures r.1 == Authorize(s, c.token).1
    ensures r.0.ReadNoAuth? <==> Authorize(s, c.token).0.NoAuth?
    ensures r.0.ReadLinks? ==>
              c.transport == Delivered && Drive.Lookup(d, id).Some?
              && Json.DecodeLinks(Drive.Lookup(d, id).value.content) == Some(r.0.links)
  {
    var auth := Authorize(s, c.token).0;
    var s1 := Authorize(s, c.token).1;
    match auth
    case NoAuth => (ReadNoAuth, s1)
    case AuthThrew => (ReadThrew, s1)
    case Authorized(_) =>
      if c.transport != Delivered then (ReadOther, s1)
      else match Drive.ServerRead(d, id)
        case None => (ReadOther, s1)
        case Some(content) =>
          match Json.DecodeLinks(content)
          case None => (ReadOther, s1)
          case Some(l) => (ReadLinks(l), s1)
  }

  /** A file written by the extension reads back as the list it holds. */
  lemma ReadWrittenFile(d: Drive.Drive, s: Token.Session, id: Drive.FileId, c: CallEnv, links: seq<Json.LinkEntry>)
    requires Authorize(s, c.token).0.Authorized? && c.transport == Delivered
    requires Drive.Lookup(d, id).Some? && Drive.Lookup(d, id).value.content == Json.EncodeLinks(links)
    ensures ReadFile(d, s, id, c).0 == ReadLinks(links)
  {
    Json.DecodeEncodedLinks(links);
  }

  // ---------------------------------------------------------------------------
  // The three writing helpers

  datatype WriteResult = WriteNoAuth | WriteOk | WriteFailed | WriteThrew

  datatype WriteReply = WriteReply(result: WriteResult, drive: Drive.Drive, session: Token.Session)

  /** `createJSONFile(fileName, folderId, content)`: a multipart upload of the
      metadata and the serialised list. */
  function CreateJsonFile(d: Drive.Drive, s: Token.Session, name: string, folder: string,
                          content: seq<Json.LinkEntry>, c: CallEnv, newId: Drive.FileId): (r: WriteReply)
    ensures r.session == Authorize(s, c.token).1
    ensures r.result == WriteNoAuth <==> Authorize(s, c.token).0.NoAuth?
    ensures r.result == WriteThrew <==> Authorize(s, c.token).0.AuthThrew?
    ensures r.result != WriteOk ==> r.drive == d
    ensures r.result == WriteOk <==> Authorize(s, c.token).0.Authorized? && c.transport == Delivered
    // the server stores exactly the file asked for, listed last
    ensures (Authorize(s, c.token).0.Authorized? && c.transport == Delivered) ==>
              r.result == WriteOk
              && r.drive == d + [Drive.DriveFile(newId, name, folder, false, Json.EncodeLinks(content))]
  {
    var auth := Authorize(s, c.token).0;
    var s1 := Authorize(s, c.token).1;
    match auth
    case NoAuth => WriteReply(WriteNoAuth, d, s1)
    case AuthThrew => WriteReply(WriteThrew, d, s1)
    case Authorized(_) =>
      if c.transport != Delivered then WriteReply(WriteFailed, d, s1)
      else
        var metadata := Json.Metadata(name, Drive.JsonMimeType, folder);
        UploadStoresFile(d, metadata, content, newId);
        match Drive.ServerCreate(d, Multipart.Boundary,
                                 Multipart.CreateBody(Json.EncodeMetadata(metadata), Json.EncodeLinks(content)), newId)
        case None => WriteReply(WriteFailed, d, s1)
        case Some(d1) => WriteReply(WriteOk, d1, s1)
  }

  /** The multipart body the extension builds is read back by the server as
      the metadata and content it was built from. */
  lemma UploadStoresFile(d: Drive.Drive, m: Json.Metadata, content: seq<Json.LinkEntry>, newId: Drive.FileId)
    ensures Drive.ServerCreate(d, Multipart.Boundary,
                               Multipart.CreateBody(Json.EncodeMetadata(m), Json.EncodeLinks(content)), newId)
            == Some(d + [Drive.DriveFile(newId, m.name, m.parent, false, Json.EncodeLinks(content))])
  {
    var meta := Json.EncodeMetadata(m);
    var body := Json.EncodeLinks(content);
    Multipart.PrintableIsSafe(meta);
    Multipart.PrintableIsSafe(body);
    Json.DecodeEncodedMetadata(m);
  }

  /** `updateJSONFile(fileId, content)`: the serialised list replaces the content. */
  function UpdateJsonFile(d: Drive.Drive, s: Token.Session, id: Drive.FileId,
                          content: seq<Json.LinkEntry>, c: CallEnv): (r: WriteReply)
    ensures r.session == Authorize(s, c.token).1
    ensures r.result == WriteNoAuth <==> Authorize(s, c.token).0.NoAuth?
    ensures r.result == WriteThrew <==> Authorize(s, c.token).0.AuthThrew?
    ensures r.result != WriteOk ==> r.drive == d
    ensures r.result == WriteOk <==>
              Authorize(s, c.token).0.Authorized? && c.transport == Delivered && Drive.Lookup(d, id).Some?
    ensures r.result == WriteOk ==>
              Drive.Lookup(r.drive, id) == Some(Drive.Lookup(d, id).value.(content := Json.EncodeLinks(content)))
              && (forall folder :: Drive.ListMeta(r.drive, folder) == Drive.ListMeta(d, folder))
  {
    var auth := Authorize(s, c.token).0;
    var s1 := Authorize(s, c.token).1;
    match auth
    case NoAuth => WriteReply(WriteNoAuth, d, s1)
    case AuthThrew => WriteReply(WriteThrew, d, s1)
    case Authorized(_) =>
      if c.transport != Delivered then WriteReply(WriteFailed, d, s1)
      else match Drive.ServerUpdate(d, id, Json.EncodeLinks(content))
        case None => WriteReply(WriteFailed, d, s1)
        case Some(d1) =>
          Drive.LookupAfterSetContent(d, id, Json.EncodeLinks(content));
          assert forall folder :: Drive.ListMeta(d1, folder) == Drive.ListMeta(d, folder) by {
            forall folder {
              Drive.SetContentKeepsListing(d, id, Json.EncodeLinks(content), folder);
            }
          }
          WriteReply(WriteOk, d1, s1)
  }

  /** `deleteFile(fileId)`: the file is removed. */
  function DeleteFile(d: Drive.Drive, s: Token.Session, id: Drive.FileId, c: CallEnv): (r: WriteReply)
    ensures r.session == Authorize(s, c.token).1
    ensures r.result == WriteNoAuth <==> Authorize(s, c.token).0.NoAuth?
    ensures r.result == WriteThrew <==> Authorize(s, c.token).0.AuthThrew?
    ensures r.result != WriteOk ==> r.drive == d
    ensures r.result == WriteOk <==>
              Authorize(s, c.token).0.Authorized? && c.transport == Delivered && Drive.Lookup(d, id).Some?
    ensures r.result == WriteOk ==>
              r.drive == Drive.Remove(d, id) && Drive.Fresh(r.drive, id)
              && (forall f :: f in r.drive <==> f in d && f.id != id)
  {
    var auth := Authorize(s, c.token).0;
    var s1 := Authorize(s, c.token).1;
    match auth
    case NoAuth => WriteReply(WriteNoAuth, d, s1)
    case AuthThrew => WriteReply(WriteThrew, d, s1)
    case Authorized(_) =>
      if c.transport != Delivered then WriteReply(WriteFailed, d, s1)
      else match Drive.ServerDelete(d, id)
        case None => WriteReply(WriteFailed, d, s1)
        case Some(d1) => WriteReply(WriteOk, d1, s1)
  }

  // ---------------------------------------------------------------------------
  // getMeta

  /** What `getMeta` resolves to. */
  datatype MetaValue =
    | Links(links: seq<Json.LinkEntry>)
    | NoAuthObject    // readFile's `{ error: 'noauth' }`, passed through
    | NotALinkList    // `undefined` or other JSON
    | MetaThrew       // a `getToken` rejected

  /** `getMeta(folderId)`: the folder's saved links, `[]` when there is no
      meta document to read. */
  function GetMeta(d: Drive.Drive, s: Token.Session, folder: string, q: CallEnv, rd: CallEnv): (r: (MetaValue, Token.Session))
    // not logged in: no links, no request, nothing written
    ensures !Token.Truthy(s.accessToken) ==> r == (Links([]), s)
    // a query that fails, or finds nothing, yields no links
    ensures (Authorize(s, q.token).0.Authorized? && (q.transport == Lost || Drive.FirstMeta(d, folder).None?)) ==>
              r.0 == Links([])
    // the links come from the first meta document of the folder
    ensures (r.0.Links? && r.0.links != []) ==>
              Drive.FirstMeta(d, folder).Some?
              && var f := d[Drive.FirstMeta(d, folder).value];
                 Drive.Lookup(d, f.id).Some? && Json.DecodeLinks(Drive.Lookup(d, f.id).value.content) == Some(r.0.links)
    // readFile's noauth object only surfaces when the refresh endpoint hands out an empty token
    ensures r.0 == NoAuthObject ==> rd.token.refresh.RefreshOk? && rd.token.refresh.accessToken == ""
    ensures r.0 == MetaThrew ==>
              Authorize(s, q.token).0 == AuthThrew || Authorize(Authorize(s, q.token).1, rd.token).0 == AuthThrew
  {
    var (f, s1) := GetMetaFile(d, s, folder, q);
    match f
    case MetaFileThrew => (MetaThrew, s1)
    case MetaFileNoAuth => (Links([]), s1)
    case MetaFileNull => (Links([]), s1)
    case MetaFileFound(h) =>
      if h.id == "" then (Links([]), s1)
      else
        AuthorizedStaysAuthorized(s, q.token, rd.token);
        var (value, s2) := ReadFile(d, s1, h.id, rd);
        match value
        case ReadNoAuth => (NoAuthObject, s2)
        case ReadLinks(l) => (Links(l), s2)
        case ReadOther => (NotALinkList, s2)
        case ReadThrew => (MetaThrew, s2)
  }

  // ---------------------------------------------------------------------------
  // setMeta

  /** The environments of the up to two helper calls `setMeta` makes, and the
      id the server assigns should it create a file. */
  datatype SetEnv = SetEnv(query: CallEnv, write: CallEnv, newId: Drive.FileId)

  /** Which branch of `setMeta` ran. */
  datatype Branch =
    | AbortNoAuth                      // `if (curr?.error) return`
    | AbortThrew                       // getMetaFile's getToken rejected
    | SkipEmpty                        // nothing stored and nothing to store
    | CreateNew
    | DeleteExisting(id: Drive.FileId)
    | UpdateExisting(id: Drive.FileId)

  datatype SetReply = SetReply(branch: Branch, written: Option<WriteResult>, drive: Drive.Drive, session: Token.Session)

  /** The promise `setMeta` returns rejects. */
  predicate Threw(r: SetReply) {
    r.branch == AbortThrew || r.written == Some(WriteThrew)
  }

  /** `setMeta(folderId, content)`: store `content` as the folder's links. */
  function SetMeta(d: Drive.Drive, s: Token.Session, folder: string, content: seq<Json.LinkEntry>, e: SetEnv): (r: SetReply)
    // not logged in: nothing is written anywhere
    ensures !Token.Truthy(s.accessToken) ==> r == SetReply(AbortNoAuth, None, d, s)
    ensures r.branch == AbortNoAuth <==> Authorize(s, e.query.token).0.NoAuth?
    ensures r.branch == AbortThrew <==> Authorize(s, e.query.token).0.AuthThrew?
    // exactly the writing branches call a writing helper
    ensures r.written.Some? <==> r.branch.CreateNew? || r.branch.DeleteExisting? || r.branch.UpdateExisting?
    // the Drive changes only through a successful write
    ensures r.written != Some(WriteOk) ==> r.drive == d
    // with the query answered, the branch follows the folder's meta document and the list's emptiness
    ensures (Authorize(s, e.query.token).0.Authorized? && e.query.transport == Delivered) ==>
              match Drive.FirstMeta(d, folder)
              case None => r.branch == (if |content| == 0 then SkipEmpty else CreateNew)
              case Some(k) => r.branch == (if |content| == 0 then DeleteExisting(d[k].id) else UpdateExisting(d[k].id))
    // a lost query is taken for "no meta document"
    ensures (Authorize(s, e.query.token).0.Authorized? && e.query.transport == Lost) ==>
              r.branch == (if |content| == 0 then SkipEmpty else CreateNew)
    // the promise rejects only when a token request rejects
    ensures r.written == Some(WriteThrew) ==> Authorize(Authorize(s, e.query.token).1, e.write.token).0.AuthThrew?
    // the writing helper's noauth object only arises from an empty refreshed token
    ensures r.written == Some(WriteNoAuth) ==> e.write.token.refresh.RefreshOk? && e.write.token.refresh.accessToken == ""
  {
    var (curr, s1) := GetMetaFile(d, s, folder, e.query);
    match curr
    case MetaFileThrew => SetReply(AbortThrew, None, d, s1)
    case MetaFileNoAuth => SetReply(AbortNoAuth, None, d, s1)
    case MetaFileNull =>
      if |content| < 1 then SetReply(SkipEmpty, None, d, s1)
      else
        AuthorizedStaysAuthorized(s, e.query.token, e.write.token);
        var w := CreateJsonFile(d, s1, Drive.MetaFileName, folder, content, e.write, e.newId);
        SetReply(CreateNew, Some(w.result), w.drive, w.session)
    case MetaFileFound(h) =>
      AuthorizedStaysAuthorized(s, e.query.token, e.write.token);
      if |content| < 1 then
        var w := DeleteFile(d, s1, h.id, e.write);
        SetReply(DeleteExisting(h.id), Some(w.result), w.drive, w.session)
      else
        var w := UpdateJsonFile(d, s1, h.id, content, e.write);
        SetReply(UpdateExisting(h.id), Some(w.result), w.drive, w.session)
  }
}
