# drive++ in Dafny

drive++ is a Chrome extension that adds a bar of bookmarked links to Google
Drive folder pages. The content script reads the folder id from the page URL.
It loads the folder's links from a JSON file named `drive++meta.json` stored
in that folder. It shows each link as a row with a favicon. It writes the file
back when a link is removed or added, and it runs again whenever the page's
address changes.

This project models that core as pure functions over explicit state:

- `Token` models `getToken`. Its inputs are the stored session, the clock and
  the refresh endpoint's answer. `utils.js` holds a copy of the same function
  that differs only in a log line.
- `Json` holds the JSON texts the extension writes, with a decoder for each and
  a round-trip proof.
- `Multipart` holds the `multipart/related` create body and the server's
  reading of it.
- `Drive` models the Drive files API as an ordered list of files, in the order
  the list endpoint returns them. A newly created file is taken to be listed
  after every existing one (see "Left out").
- `MetaStore` models `getMetaFile`, `readFile`, `createJSONFile`,
  `updateJSONFile`, `deleteFile`, `getMeta` and `setMeta`.
- `MetaProperties` relates those operations to each other: save-then-load and
  the one-meta-document-per-folder invariant.
- `FolderUrl` models `URLRE` under ECMAScript regular-expression semantics.
- `Edits` models `splice(idx, 1)`, `trim()` and the add handler's guard.
- `Overlay` models `main` and the two click handlers.
- `Watcher` models the history hooks and the `MutationObserver`.

Each helper call gets its own environment, because each helper calls
`getToken` and `fetch` itself. That environment holds the token answer and
whether the request is delivered. The server assigns a new file's id, so it is
a parameter.

Every helper, and so `getMeta`, `setMeta` and `main`, obtains its token through
`Token.GetTokenSettled`. That is the corrected `getToken` of the first finding
below. Where the code's token promise never settles after a broken refresh,
the model's helpers see a rejection instead.

Two behaviours of the code are easy to misread:

- The history hooks do not update `lastUrl`; only the observer does.
- A stored token without an expiry is handed back as it is, because
  `undefined <= n` is false.

## Model

| member | source | states |
|---|---|---|
| Token.NowInSeconds | content.js:169 | the seconds value is the floor of milliseconds / 1000 |
| Token.ExpiresSoon | content.js:168-173 | a refresh is due exactly when an expiry is stored and, in milliseconds, it is no later than one minute from now; no expiry, no refresh |
| Token.GetToken | content.js:161-206 | null with no request when not logged in; a refresh is requested exactly when a stored token expires within 60 s; otherwise the stored token comes back untouched; a successful refresh returns the new token and stores it with its expiry; a refused one rejects with `request failed: ` and leaves storage alone; the refresh token is never rewritten |
| Token.RefreshCarriesRefreshToken | content.js:181-183 | the refresh request body decodes to the stored refresh token (absent stays absent) |
| Token.ResolvedTokenIsStored | content.js:187-192 | storage is left alone or gets token and expiry together; a resolved token is the one held in storage |
| Token.BrokenRefreshNeverSettles | utils.js:19-41 | as written, a refresh whose fetch or JSON parse throws leaves the promise pending |
| Token.GetTokenSettled | content.js:172-196 | corrected: the promise always settles; it agrees with `getToken` where that settles and rejects where it hangs |
| Token.SettledTokenPersists | content.js:168-199 | after a non-empty token resolved, the next call resolves or rejects, never null |
| Token.FreshTokenReused | content.js:173-198 | a token refreshed to an expiry beyond the next call's window is handed back by that call with no request |
| Json.ParseEncodedString | content.js:293 | a `JSON.stringify`-quoted string decodes back to itself and leaves the text after it |
| Json.DecodeEncodedLinks | content.js:293 | the serialised link list parses back (`response.json()`) to the same list |
| Json.EncodeLinks | content.js:293 | the serialised list is printable single-line text bracketed by `[` and `]`, and is `[]` exactly for the empty list |
| Json.DecodeLinks | content.js:259 | only text opening with `[` reads as a link list, and only `[]` reads as the empty list |
| Json.DecodeEncodedMetadata | content.js:275-290 | the serialised file metadata parses back to name, MIME type and parent |
| Json.EncodeMetadata | content.js:275-290 | the serialised metadata is printable single-line text opening with `{` |
| Json.DecodeEncodedRefreshBody | content.js:181-183 | the refresh body parses back to the refresh token, an absent one being omitted |
| Json.EncodeRefreshBody | content.js:181-183 | the refresh body is a printable JSON object, and is `{}` exactly when no refresh token is stored |
| Multipart.RequestBoundary | content.js:282-302 | the request's `Content-Type` names the boundary the body is built with |
| Multipart.ParseTwoPartBody | content.js:283-295 | a delimiter/part/delimiter/part/close body splits back into exactly its two parts when the parts hold no CR and do not start with `-` |
| Multipart.CreateBody | content.js:282-295 | the create body splits back into exactly the metadata part and the content part whenever those are safe to place in a part |
| Multipart.PrintableIsSafe | content.js:290-293 | JSON text from the encoders can sit in a part without ending it early |
| Drive.ListMeta | content.js:212-230 | the query response holds no more files than the Drive |
| Drive.FirstMeta | content.js:229-230 | the first matching file in listing order: it matches, and no earlier file does |
| Drive.ListMetaFirst | content.js:229-234 | `data.files` is empty exactly when no file matches, and `files[0]` is the first match |
| Drive.ListedFilesExist | content.js:212-215 | every listed handle is a non-trashed file named `drive++meta.json` in the folder |
| Drive.MatchingFilesListed | content.js:212-215 | every non-trashed `drive++meta.json` whose parent is the folder is in the query answer |
| Drive.Lookup | content.js:245 | finding a file by id fails exactly when no file has that id |
| Drive.SetContent | content.js:322-331 | files with the id get the new content; every other file and the order are unchanged |
| Drive.Remove | content.js:349-357 | files with the id are gone; every other file stays |
| Drive.SetContentKeepsListing | content.js:318-331 | rewriting content changes no query answer |
| Drive.RemoveShrinksListing | content.js:345-357 | deleting an id drops exactly its handles from every query answer, and empties an answer that held only it |
| Drive.AppendListing | content.js:271-305 | a created file joins the end of exactly the query answers it matches |
| Drive.LookupAppended | content.js:271-312 | a file created under a fresh id is what that id finds |
| Drive.LookupAfterSetContent | content.js:322-331 | after an update, reading the file by id yields the new content |
| MetaStore.AuthorizeOutcome | content.js:209-210 | not logged in: noauth with storage untouched; a rejection exactly when a refresh is due and the endpoint does not grant one; noauth for a logged-in session only from an empty granted token; an authorized call uses the token left in storage |
| MetaStore.OkTokenAuthorizes | content.js:209-210 | a logged-in session whose refresh succeeds gets past `if (!token)` and stays logged in |
| MetaStore.AuthorizedStaysAuthorized | content.js:141-155 | after one helper was authorized, the next sees no token only if the refresh handed back an empty one |
| MetaStore.GetMetaFile | content.js:208-239 | noauth exactly when the token is falsy; a handle exactly when authorized, delivered and a meta document exists, and it is the first one listed; not logged in answers noauth with nothing written |
| MetaStore.ReadFile | content.js:241-264 | noauth exactly when the token is falsy; a link list only from a delivered read of an existing file whose content decodes to it |
| MetaStore.ReadWrittenFile | content.js:241-260 | a file holding a serialised list reads back as that list |
| MetaStore.UploadStoresFile | content.js:266-305 | the multipart upload stores a new file with the metadata's name and parent and the list as content, listed last |
| MetaStore.CreateJsonFile | content.js:266-316 | succeeds exactly when authorized and delivered, and then the Drive gains exactly the requested file; noauth exactly when the token is falsy; a rejection exactly when `getToken` rejects; nothing changes otherwise |
| MetaStore.UpdateJsonFile | content.js:318-343 | succeeds exactly when authorized, delivered and the id exists; the file then holds the new list and no query answer changes; noauth exactly when the token is falsy; a rejection exactly when `getToken` rejects; nothing changes otherwise |
| MetaStore.DeleteFile | content.js:345-369 | succeeds exactly when authorized, delivered and the id exists; the file is then gone and everything else stays; noauth exactly when the token is falsy; a rejection exactly when `getToken` rejects; nothing changes otherwise |
| MetaStore.GetMeta | content.js:134-139 | on the settled token: no links when not logged in, when the query fails or when nothing is found; non-empty links come from the folder's first meta document; readFile's noauth object only arises from an empty refreshed token; a rejection only from a token rejection |
| MetaStore.SetMeta | content.js:141-155 | on the settled token: aborts exactly on noauth or a token rejection; rejects afterwards only when the writing helper's token request rejects; with the query answered, skips, creates, deletes or updates according to whether a meta document exists and the list is empty; a failed query is taken for no document; the Drive changes only through a successful write |
| MetaProperties.GetWrittenMeta | content.js:134-139 | a folder whose first meta document holds a serialised list loads as that list |
| MetaProperties.SetKeepsLogin | content.js:141-155 | saving with working token refreshes keeps the session logged in |
| MetaProperties.SetOkResolves | content.js:141-155 | with working token refreshes and delivered requests, the promise `setMeta` returns resolves |
| MetaProperties.SetThenGet | content.js:134-155 | saving a non-empty list and then loading yields that list, with or without an existing document |
| MetaProperties.SetCreates | content.js:146-148 | with no meta document, saving appends exactly one new meta document holding the list |
| MetaProperties.SetUpdates | content.js:152-153 | with a meta document, saving rewrites that document's content and nothing else |
| MetaProperties.FirstMetaOfAppendNew | content.js:146-148 | a document created in a folder without one becomes the folder's meta document |
| MetaProperties.FirstMetaOfSetContent | content.js:152-153 | rewriting content does not change which document is a folder's first |
| MetaProperties.SetEmptyThenGet | content.js:144-151 | saving an empty list leaves the folder without a meta document, and loading yields no links |
| MetaProperties.SetEmptyClears | content.js:144-151 | saving an empty list to a folder with at most one meta document leaves it with none |
| MetaProperties.SetEmptyDeletes | content.js:149-150 | saving an empty list to a folder with a meta document deletes that document |
| MetaProperties.GetWithoutMeta | content.js:134-139 | a logged-in load of a folder without a meta document yields no links |
| MetaProperties.SetKeepsOneMeta | content.js:141-155 | with the query answered, saving keeps every folder at one meta document at most |
| MetaProperties.RunKeepsOneMeta | content.js:141-155 | so does any sequence of saves whose queries are answered |
| MetaProperties.LostQueryCreates | content.js:141-148 | a failed query with working tokens leads `setMeta` to create a new document, appended to the Drive |
| MetaProperties.LostQueryDuplicates | content.js:141-148 | a failed query before saving to a folder that has its document creates a second one; later loads still read the old one |
| MetaProperties.FirstMetaOfAppend | content.js:229-230 | a file added at the end never displaces a folder's first meta document |
| Edits.SpliceStart | content.js:39 | the clamped start index lies in the list and equals a valid start |
| Edits.Splice1 | content.js:38-40 | an index inside the list removes exactly that entry and keeps the rest in order; an index past the end removes nothing |
| Edits.SpliceReinsert | content.js:38-40 | putting the removed entry back where it was restores the list |
| Edits.SpliceMultiset | content.js:38-40 | the removed entry loses one occurrence; every other entry keeps its count |
| Edits.SkipSpace | content.js:79 | the first non-white-space position from a start |
| Edits.SkipSpaceBack | content.js:79 | the end of a range once trailing white space is dropped |
| Edits.Trim | content.js:79 | `trim()` yields a slice of the input with only white space cut from both ends and no white space at either end |
| Edits.TrimEmpty | content.js:79 | a string trims to nothing exactly when it is all white space |
| Edits.AddEntry | content.js:77-81 | a cancelled, empty or blank answer is refused; otherwise the answer, untrimmed, is appended after the current links |
| FolderUrl.RunEnd | content.js:1 | the greedy extent of `.+`: all non-line-terminators, stopped by a line terminator or the end |
| FolderUrl.LastCandidate | content.js:1 | the backtracking of group 1: the rightmost `/folders/` followed by a matchable character |
| FolderUrl.MatchAt | content.js:1 | a match attempted at one position: when it exists it is a match, with the greedy group 1 and group 2 |
| FolderUrl.Exec | content.js:1-5 | `href.match(URLRE)`: the leftmost match, greedy in both groups, or none when nothing matches anywhere |
| FolderUrl.FolderId | content.js:5-8 | the id is non-empty and free of line terminators, so `if (!id)` never fires; no id exactly when the URL does not match |
| FolderUrl.FolderIdIsTail | content.js:1-7 | the id runs from a `/folders/` to the end of the line, query string and fragment included |
| FolderUrl.LaterFolders | content.js:1 | a later `/folders/` inside group 2 gives a match with a longer group 1 |
| FolderUrl.FoldersInSlice | content.js:1 | a `/folders/` inside the id is one in the URL |
| FolderUrl.FolderIdIsLast | content.js:1-7 | the id never contains `/folders/` followed by more: group 1 took the last one |
| FolderUrl.FolderUrlMatches | content.js:1 | `https://drive.google.com/drive/u/<a>/folders/<b>` matches, split after `<a>` |
| FolderUrl.NoSlashAfter | content.js:1 | in such a URL with `<b>` free of slashes there is no `/` past the `/folders/` |
| FolderUrl.WholeMatch | content.js:1-5 | a match spanning the whole line with no `/` after its `/folders/` is the match `href.match` returns |
| FolderUrl.FolderUrlSpan | content.js:1-5 | with `<b>` free of slashes the match is the whole URL, split after `<a>` |
| FolderUrl.FolderUrlId | content.js:1-7 | with `<b>` free of slashes and on one line, the id is `<b>` |
| Overlay.RowsShowLinks | content.js:25-65 | the rows show exactly the stored links in order, each with its favicon, and a non-empty list has exactly one row marked last |
| Overlay.Main | content.js:3-89 | on the settled token: no folder URL means no request and no overlay; an overlay appears exactly on a folder page with a body, a template and a link list, listing exactly what `getMeta` returned, with the list shown only when non-empty; a `getMeta` rejection is the only case that rejects |
| Overlay.OnAdd | content.js:76-85 | a cancelled or blank answer does nothing; otherwise the list with the answer appended is saved and `main` reruns unless saving rejected |
| Overlay.RemoveThenReload | content.js:38-45 | removing a row and reloading lists the remaining links in order |
| Overlay.RemoveOnlyLinkDeletes | content.js:38-45 | removing the only link deletes the folder's meta document and the reload finds no links |
| Overlay.AddThenReload | content.js:76-85 | adding a link and reloading lists the old links and then the new one |
| Overlay.AddThenShown | content.js:3-85 | after adding, the rerun of `main` shows the list, its last row being the new link with its favicon |
| Watcher.Step | content.js:98-127 | a hook always runs `main` and leaves `lastUrl`; an unseen address change runs nothing; a DOM change runs `main` exactly when the address differs from `lastUrl`, and records it |
| Watcher.StepRecording | content.js:98-127 | corrected: as `Step`, and every `main` call records the address it ran for |
| Watcher.Run | content.js:98-127 | `main` runs at most once per event |
| Watcher.LastCallAppend | content.js:118-127 | the latest call after two stretches is the latest of the second, or else of the first |
| Watcher.MutationSettles | content.js:122-127 | a second DOM change at the same address runs nothing and changes nothing |
| Watcher.LastUrlTracksLastCall | content.js:118-127 | `lastUrl` is the address of the latest `main` call over any events when hooks record it; as written, only when no hook fires |
| Watcher.RunAppendMutation | content.js:122-127 | after a DOM change `lastUrl` is the current address |
| Watcher.RecordingCatchesUp | content.js:98-127 | corrected: after any events and a DOM change, `main` last ran for the current address |
| Watcher.ObserverAloneCatchesUp | content.js:118-127 | as written, the same holds for runs in which no hook fires |
| Watcher.PopThenMutationRunsTwice | content.js:113-127 | as written, back/forward to a new address runs `main` there, and the next DOM change runs it there again |
| Watcher.ReturnToLoadedUrlMissed | content.js:113-127 | as written, back/forward to `b` and an unseen return to the loaded `a` leave `main` last run for `b` while the page is at `a` |

## Left out

- The DOM is left out. This covers element creation, CSS classes, the text of
  rows, removing the old overlay with `getElementById('drive++')`, hiding the
  overlay before a rerun, and `console` output. `Overlay.Main` keeps only the
  rows and whether the list is shown.
- `inject.html` and `loadHTMLTemplate` are left out. Whether the template
  loads, and whether a `<body>` exists, are parameters of `Main`.
- Concurrency is left out. `main`, the handlers and the observer are
  asynchronous and may interleave. The model runs each call to completion in
  sequence, and a handler saves the list that its `main` run loaded.
- The network, `chrome.storage` and the clock are left out. Each request's
  fate (`Delivered` or `Lost`), the refresh endpoint's answer, the current time
  and the id the server assigns are inputs. A lost request is assumed not to
  change the server.
- `statusText` and error messages are left out. `deleteFile`'s
  `{ error: message }` and `createJSONFile`'s metadata answer are not read by
  `setMeta`, so they are reduced to `WriteFailed` and `WriteOk`.
- `encodeURIComponent` and the quoting of the query are not modelled. A folder
  id holding `'` would break the query string. The model treats the query as
  the filter it is written to express.
- Only the compact JSON that `JSON.stringify` writes is decoded. A meta
  document written by other means reads as `NotALinkList`, as does any JSON
  that is not a list of `{url}` objects.
- A 2xx refresh response that lacks `accessToken` or `expiresAt` is not
  modelled. `RefreshOk` always carries both.
- JavaScript strings may hold lone surrogates. Dafny characters are Unicode
  scalar values, so those do not arise in the model.
- `login.js` and `popup.js` are not part of this model.
- MetaStore.Authorize: it runs on `Token.GetTokenSettled`, so after a broken
  refresh it answers `AuthThrew` where the code's `await getToken()` never
  returns. The helpers built on it (`GetMetaFile`, `ReadFile`,
  `CreateJsonFile`, `UpdateJsonFile`, `DeleteFile`) inherit this.
- MetaStore.GetMeta: it is built on the settled token. After a broken refresh
  it rejects, where the code's `getMeta` never settles.
- MetaStore.SetMeta: it is built on the settled token. After a broken refresh
  it ends in `AbortThrew`, or in `WriteThrew` when the writing helper's
  refresh breaks, where the code's `setMeta` never settles.
- Overlay.Main: it is built on the settled token. After a broken refresh it
  shows `NoOverlay(MetaRejected)`, where the code's `main` hangs at
  `await getMeta`.
- The listing order of new files is assumed. `Drive.ServerCreate` appends a
  created file after every existing file, so it is listed last. The query in
  content.js:212-215 sends no `orderBy`, so in fact the Drive API decides the
  order. `Drive.AppendListing`, `MetaStore.UploadStoresFile` and the two
  lemmas below rely on this assumption.
- MetaProperties.LostQueryDuplicates: that later loads still read the old
  document rests on the listing-order assumption of `Drive.ServerCreate`.
  Under another order, a load may read the new duplicate instead.
- MetaProperties.FirstMetaOfAppend: it rests on the same listing-order
  assumption.
- MetaStore.GetMeta: its contract does not characterise every way to get
  `NotALinkList`: a lost read, a missing file, or content that is not a link
  list. `ReadFile` and `ReadWrittenFile` state the read side.
- Overlay.Main: its contract does not single out `NoBody` and
  `TemplateFailed`. It states exactly when an overlay appears and when `main`
  rejects.
- Watcher.Run: its contract states only that `main` runs at most once per
  event. The content of the call list is stated by the lemmas about it.
- Drive.ListMeta: its contract only bounds the answer's length. What the
  answer holds is stated by `ListMetaFirst`, `ListedFilesExist` and the
  listing lemmas.

## Findings

| source | as written | input that shows it | evidently intended | confidence | as-written member | corrected member |
|---|---|---|---|---|---|---|
| utils.js:19-41 | the refresh `fetch` and `response.json()` are awaited inside the async storage callback. A throw there rejects the callback's own promise, never `getToken`'s, which stays pending (content.js:174-196 is the same) | a stored token that expires within 60 s, and a refresh request that fails at the network level or answers with a body that is not JSON | `getToken` rejects, so that `getMeta`/`setMeta` fail instead of hanging for good | medium, not executed | Token.BrokenRefreshNeverSettles | Token.GetTokenSettled |
| content.js:98-127 | the `pushState`/`replaceState` wrappers and the `popstate`/`hashchange` listeners call `main` without updating `lastUrl`. The observer then compares with a stale address: the next DOM change reruns `main` for an address it already ran for, and a later return to the stale address goes unnoticed | load folder `a`; back/forward to `b` (main runs for `b`); the page moves to `a` with no hook firing; a DOM change (no rerun: `href == lastUrl`) | every `main` call records the address it ran for, so the observer reruns `main` exactly when the page has left that address | low, not executed: the DOM changes `main` itself makes usually let the observer catch up in between | Watcher.ReturnToLoadedUrlMissed | Watcher.RecordingCatchesUp |
