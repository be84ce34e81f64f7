/** `main()` and the two click handlers it installs: what the overlay shows
    for the current page, and what removing or adding a link does to the
    folder's meta document before `main` runs again. The DOM is reduced to
    what it carries: one row per link and whether the list is shown. Whether
    `<body>` exists and whether `inject.html` loads are parameters. */
module Overlay {
  import opened Base
  import Json
  import Token
  import Drive
  import FolderUrl
  import Edits
  import opened MetaStore
  import MetaProperties

  const FaviconService: string := "https://www.google.com/s2/favicons?domain="

  /** One `.urlouter` row: the link text and target, the favicon source, and
      whether it carries `lasturl`. */
  datatype Row = Row(url: string, favicon: string, isLast: bool)

  /** Why `main` put no overlay on the page. */
  datatype Absent =
    | NotAFolder       // the URL does not match, so `main` returns at once
    | NoBody           // `document.querySelector('body')` is null
    | MetaRejected     // `getMeta` rejected, and with it `main`
    | TemplateFailed   // loading `inject.html` threw; the error is logged
    | NotAList         // `meta.forEach` threw on what `getMeta` returned; logged

  datatype View =
    | NoOverlay(why: Absent)
    | Shown(folder: string, meta: seq<Json.LinkEntry>, rows: seq<Row>, listShown: bool)

  /** The page's DOM and the calls `main` makes. */
  datatype MainEnv = MainEnv(hasBody: bool, templateOk: bool, query: CallEnv, read: CallEnv)

  function RowsOf(meta: seq<Json.LinkEntry>): (rows: seq<Row>)
    // one row per link, in order, each linking and fetching the favicon of its URL
    ensures |rows| == |meta|
    ensures forall i :: 0 <= i < |meta| ==>
              rows[i].url == meta[i].url && rows[i].favicon == FaviconService + meta[i].url
              && (rows[i].isLast <==> i == |meta| - 1)
  {
    seq(|meta|, i requires 0 <= i < |meta| => Row(meta[i].url, FaviconService + meta[i].url, i == |meta| - 1))
  }

  /** The links a reader of the rows sees, top to bottom. */
  function LinksShown(rows: seq<Row>): (links: seq<Json.LinkEntry>)
    ensures |links| == |rows|
  {
    seq(|rows|, i requires 0 <= i < |rows| => Json.LinkEntry(rows[i].url))
  }

  /** The rows show exactly the stored links, in order, and a non-empty list
      has exactly one row marked last: its final one. */
  lemma RowsShowLinks(meta: seq<Json.LinkEntry>)
    ensures LinksShown(RowsOf(meta)) == meta
    ensures forall i :: 0 <= i < |meta| ==> RowsOf(meta)[i].favicon == FaviconService + meta[i].url
    ensures forall i, j :: 0 <= i < j < |meta| && RowsOf(meta)[i].isLast ==> !RowsOf(meta)[j].isLast
    ensures |meta| > 0 <==> exists i :: 0 <= i < |meta| && RowsOf(meta)[i].isLast
  {
    var rows := RowsOf(meta);
    if |meta| > 0 {
      assert rows[|meta| - 1].isLast;
    }
  }

  /** `main()` on the page at `href`. */
  function Main(href: string, d: Drive.Drive, s: Token.Session, env: MainEnv): (r: (View, Token.Session))
    // no folder in the URL: nothing is requested and nothing shown
    ensures FolderUrl.FolderId(href).None? ==> r == (NoOverlay(NotAFolder), s)
    // an overlay appears exactly for a folder page whose links could be read
    ensures r.0.Shown? <==>
              FolderUrl.FolderId(href).Some? && env.hasBody && env.templateOk
              && GetMeta(d, s, FolderUrl.FolderId(href).value, env.query, env.read).0.Links?
    // it lists the links getMeta returned, and shows the list only when there is one
    ensures r.0.Shown? ==>
              r.0.folder == FolderUrl.FolderId(href).value
              && GetMeta(d, s, r.0.folder, env.query, env.read).0 == Links(r.0.meta)
              && r.0.rows == RowsOf(r.0.meta)
              && (r.0.listShown <==> |r.0.meta| > 0)
    ensures r.0 == NoOverlay(MetaRejected) <==>
              FolderUrl.FolderId(href).Some? && env.hasBody
              && GetMeta(d, s, FolderUrl.FolderId(href).value, env.query, env.read).0 == MetaThrew
  {
    match FolderUrl.FolderId(href)
    case None => (NoOverlay(NotAFolder), s)
    case Some(id) =>
      if !env.hasBody then (NoOverlay(NoBody), s)
      else
        var got := GetMeta(d, s, id, env.query, env.read);
        if got.0 == MetaThrew then (NoOverlay(MetaRejected), got.1)
        else if !env.templateOk then (NoOverlay(TemplateFailed), got.1)
        else match got.0
          case Links(meta) => (Shown(id, meta, RowsOf(meta), |meta| >= 1), got.1)
          case _ => (NoOverlay(NotAList), got.1)
  }

  // ---------------------------------------------------------------------------
  // The handlers

  /** What a click leads to: nothing (a refused prompt), or a `setMeta` call
      followed by `main()` unless `setMeta` rejected. */
  datatype Click =
    | Ignored
    | Saved(reply: SetReply, rerun: bool)

  /** The delete icon of row `idx`: store the list without that entry. */
  function OnRemove(d: Drive.Drive, s: Token.Session, folder: string, meta: seq<Json.LinkEntry>,
                    idx: nat, e: SetEnv): (r: Click)
    ensures r.Saved?
    ensures r.reply == SetMeta(d, s, folder, Edits.Splice1(meta, idx), e)
    ensures r.rerun <==> !Threw(r.reply)
  {
    var reply := SetMeta(d, s, folder, Edits.Splice1(meta, idx), e);
    Saved(reply, !Threw(reply))
  }

  /** The add button, with what `prompt` answered (`None` when cancelled). */
  function OnAdd(d: Drive.Drive, s: Token.Session, folder: string, meta: seq<Json.LinkEntry>,
                 input: Option<string>, e: SetEnv): (r: Click)
    // a cancelled, empty or blank answer changes nothing
    ensures r.Ignored? <==> input.None? || Edits.AllSpace(input.value)
    // otherwise the answer, as typed, is appended to the list shown
    ensures r.Saved? ==>
              r.reply == SetMeta(d, s, folder, meta + [Json.LinkEntry(input.value)], e)
              && (r.rerun <==> !Threw(r.reply))
  {
    match Edits.AddEntry(meta, input)
    case None => Ignored
    case Some(m) =>
      assert m == meta + [Json.LinkEntry(input.value)];
      var reply := SetMeta(d, s, folder, m, e);
      Saved(reply, !Threw(reply))
  }

  // ---------------------------------------------------------------------------
  // Click, then reload

  /** The environments under which every call of a click and the reload that
      follows goes through. */
  predicate AllOk(e: SetEnv, q: CallEnv, rd: CallEnv) {
    CallOk(e.query) && CallOk(e.write) && CallOk(q) && CallOk(rd)
  }

  /** Removing row `idx` and reloading lists the remaining links, in order. */
  lemma RemoveThenReload(d: Drive.Drive, s: Token.Session, folder: string, meta: seq<Json.LinkEntry>,
                         idx: nat, e: SetEnv, q: CallEnv, rd: CallEnv)
    requires Token.Truthy(s.accessToken) && AllOk(e, q, rd)
    requires MetaProperties.IdsNonEmpty(d) && e.newId != "" && Drive.Fresh(d, e.newId)
    requires |Drive.ListMeta(d, folder)| <= 1
    requires idx < |meta|
    ensures var c := OnRemove(d, s, folder, meta, idx, e);
            c.rerun
            && GetMeta(c.reply.drive, c.reply.session, folder, q, rd).0 == Links(Edits.Splice1(meta, idx))
  {
    var rest := Edits.Splice1(meta, idx);
    MetaProperties.SetOkResolves(d, s, folder, rest, e);
    if |rest| > 0 {
      MetaProperties.SetThenGet(d, s, folder, rest, e, q, rd);
    } else {
      assert rest == [];
      MetaProperties.SetEmptyThenGet(d, s, folder, e, q, rd);
    }
  }

  /** Removing the only link deletes the folder's meta document, and the
      reload finds no links. */
  lemma RemoveOnlyLinkDeletes(d: Drive.Drive, s: Token.Session, folder: string, entry: Json.LinkEntry,
                              e: SetEnv, q: CallEnv, rd: CallEnv)
    requires Token.Truthy(s.accessToken) && AllOk(e, q, rd)
    requires Drive.FirstMeta(d, folder).Some? && |Drive.ListMeta(d, folder)| <= 1
    ensures var c := OnRemove(d, s, folder, [entry], 0, e);
            var id := d[Drive.FirstMeta(d, folder).value].id;
            c.reply.branch == DeleteExisting(id)
            && c.reply.drive == Drive.Remove(d, id)
            && Drive.ListMeta(c.reply.drive, folder) == []
            && GetMeta(c.reply.drive, c.reply.session, folder, q, rd).0 == Links([])
  {
    assert Edits.Splice1([entry], 0) == [];
    OkTokenAuthorizes(s, e.query.token);
    OkTokenAuthorizes(Authorize(s, e.query.token).1, e.write.token);
    Drive.ListMetaFirst(d, folder);
    Drive.ListedFilesExist(d, folder, 0);
    MetaProperties.SetEmptyThenGet(d, s, folder, e, q, rd);
  }

  /** Adding a link and reloading lists the old links and then the new one. */
  lemma AddThenReload(d: Drive.Drive, s: Token.Session, folder: string, meta: seq<Json.LinkEntry>,
                      input: string, e: SetEnv, q: CallEnv, rd: CallEnv)
    requires Token.Truthy(s.accessToken) && AllOk(e, q, rd)
    requires MetaProperties.IdsNonEmpty(d) && e.newId != "" && Drive.Fresh(d, e.newId)
    requires !Edits.AllSpace(input)
    ensures var c := OnAdd(d, s, folder, meta, Some(input), e);
            c.Saved? && c.rerun
            && GetMeta(c.reply.drive, c.reply.session, folder, q, rd).0 == Links(meta + [Json.LinkEntry(input)])
  {
    var m := meta + [Json.LinkEntry(input)];
    MetaProperties.SetOkResolves(d, s, folder, m, e);
    MetaProperties.SetThenGet(d, s, folder, m, e, q, rd);
  }

  /** After adding, the reloaded overlay on the same folder page shows the
      new list, its last row being the link just added. */
  lemma AddThenShown(href: string, d: Drive.Drive, s: Token.Session, meta: seq<Json.LinkEntry>,
                     input: string, e: SetEnv, env: MainEnv)
    requires FolderUrl.FolderId(href).Some? && env.hasBody && env.templateOk
    requires Token.Truthy(s.accessToken) && AllOk(e, env.query, env.read)
    requires MetaProperties.IdsNonEmpty(d) && e.newId != "" && Drive.Fresh(d, e.newId)
    requires !Edits.AllSpace(input)
    ensures var c := OnAdd(d, s, FolderUrl.FolderId(href).value, meta, Some(input), e);
            c.Saved?
            && var v := Main(href, c.reply.drive, c.reply.session, env).0;
               v.Shown? && v.meta == meta + [Json.LinkEntry(input)] && v.listShown
               && v.rows[|meta|] == Row(input, FaviconService + input, true)
  {
    AddThenReload(d, s, FolderUrl.FolderId(href).value, meta, input, e, env.query, env.read);
  }
}
