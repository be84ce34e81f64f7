/** The remote side of the meta-document store: the files of a Drive as the
    list endpoint enumerates them, and what the files API does with the five
    requests the extension sends (query, read, create, update, delete). */
module Drive {
  import opened Base
  import Json
  import Multipart

  type FileId = string

  datatype DriveFile = DriveFile(id: FileId, name: string, parent: string, trashed: bool, content: string)

  /** The files, in the order the list endpoint returns them. */
  type Drive = seq<DriveFile>

  /** The `{id, name}` objects the query asks for (`fields=files(id, name)`). */
  datatype FileHandle = FileHandle(id: FileId, name: string)

  /** The reserved name of the meta document. */
  const MetaFileName: string := "drive++meta.json"

  const JsonMimeType: string := "application/json"

  /** The query `'<folder>' in parents and name='drive++meta.json' and trashed=false`. */
  predicate IsMetaOf(f: DriveFile, folder: string) {
    f.name == MetaFileName && f.parent == folder && !f.trashed
  }

  function HandleOf(f: DriveFile): FileHandle {
    FileHandle(f.id, f.name)
  }

  /** The `files` array of the query response: every match, in listing order. */
  function ListMeta(d: Drive, folder: string): (r: seq<FileHandle>)
    ensures |r| <= |d|
  {
    if |d| == 0 then []
    else (if IsMetaOf(d[0], folder) then [HandleOf(d[0])] else []) + ListMeta(d[1..], folder)
  }

  /** The position of the first meta document of `folder`, if any. */
  function FirstMeta(d: Drive, folder: string): (r: Option<nat>)
    ensures r.Some? ==> r.value < |d| && IsMetaOf(d[r.value], folder)
    ensures r.Some? ==> forall j :: 0 <= j < r.value ==> !IsMetaOf(d[j], folder)
    ensures r.None? ==> forall j :: 0 <= j < |d| ==> !IsMetaOf(d[j], folder)
  {
    if |d| == 0 then None
    else if IsMetaOf(d[0], folder) then Some(0)
    else match FirstMeta(d[1..], folder)
      case None => None
      case Some(k) => Some(k + 1)
  }

  /** The query's first result is the first meta document in listing order,
      and the result is empty exactly when there is none. */
  lemma {:induction false} ListMetaFirst(d: Drive, folder: string)
    ensures (ListMeta(d, folder) == []) <==> FirstMeta(d, folder).None?
    ensures FirstMeta(d, folder).Some? ==> ListMeta(d, folder)[0] == HandleOf(d[FirstMeta(d, folder).value])
  {
    if |d| > 0 && !IsMetaOf(d[0], folder) {
      ListMetaFirst(d[1..], folder);
      assert ListMeta(d, folder) == ListMeta(d[1..], folder);
    }
  }

  /** At most one meta document per folder. */
  ghost predicate OneMetaPerFolder(d: Drive) {
    forall folder :: |ListMeta(d, folder)| <= 1
  }

  /** Every file of the query response is a file of the Drive. */
  lemma {:induction false} ListedFilesExist(d: Drive, folder: string, i: nat)
    requires i < |ListMeta(d, folder)|
    ensures exists j :: 0 <= j < |d| && d[j].id == ListMeta(d, folder)[i].id && IsMetaOf(d[j], folder)
  {
    var head := if IsMetaOf(d[0], folder) then [HandleOf(d[0])] else [];
    if i < |head| {
      assert d[0].id == ListMeta(d, folder)[i].id;
    } else {
      ListedFilesExist(d[1..], folder, i - |head|);
      var j :| 0 <= j < |d[1..]| && d[1..][j].id == ListMeta(d[1..], folder)[i - |head|].id && IsMetaOf(d[1..][j], folder);
      assert d[j + 1] == d[1..][j];
    }
  }

  // ---------------------------------------------------------------------------
  // Requests by file id

  /** The first file with id `id`. */
  function Lookup(d: Drive, id: FileId): (r: Option<DriveFile>)
    ensures r.Some? ==> r.value in d && r.value.id == id
    ensures r.None? <==> forall j :: 0 <= j < |d| ==> d[j].id != id
  {
    if |d| == 0 then None
    else if d[0].id == id then Some(d[0])
    else Lookup(d[1..], id)
  }

  predicate Fresh(d: Drive, id: FileId) {
    forall j :: 0 <= j < |d| ==> d[j].id != id
  }

  /** Every file with id `id` gets content `content`; nothing else changes. */
  function SetContent(d: Drive, id: FileId, content: string): (r: Drive)
    ensures |r| == |d|
    ensures forall j :: 0 <= j < |d| ==>
              r[j] == (if d[j].id == id then d[j].(content := content) else d[j])
  {
    if |d| == 0 then []
    else [if d[0].id == id then d[0].(content := content) else d[0]] + SetContent(d[1..], id, content)
  }

  /** Every file with id `id` is gone; the others stay, in order. */
  function Remove(d: Drive, id: FileId): (r: Drive)
    ensures forall j :: 0 <= j < |r| ==> r[j].id != id
    ensures forall f :: f in r <==> f in d && f.id != id
  {
    if |d| == 0 then []
    else (if d[0].id == id then [] else [d[0]]) + Remove(d[1..], id)
  }

  /** `GET files/<id>?alt=media`: the file's content; an unknown id is a 404. */
  function ServerRead(d: Drive, id: FileId): (r: Option<string>)
    ensures r.Some? <==> Lookup(d, id).Some?
    ensures r.Some? ==> r.value == Lookup(d, id).value.content
  {
    var f :- Lookup(d, id);
    Some(f.content)
  }

  /** `PATCH upload/files/<id>?uploadType=media`: the body becomes the content. */
  function ServerUpdate(d: Drive, id: FileId, body: string): Option<Drive> {
    if Lookup(d, id).None? then None else Some(SetContent(d, id, body))
  }

  /** `DELETE files/<id>`: the file is removed (not moved to the trash). */
  function ServerDelete(d: Drive, id: FileId): Option<Drive> {
    if Lookup(d, id).None? then None else Some(Remove(d, id))
  }

  /** `POST upload/files?uploadType=multipart`: the server reads the metadata
      part for the name and parent and stores the second part as the content
      of a new file under the id it assigns. The new file is listed last:
      the query sets no order, so this is an assumption about the server. */
  function ServerCreate(d: Drive, boundary: string, body: string, newId: FileId): Option<Drive> {
    var parts :- Multipart.ParseBody(boundary, body);
    if |parts| != 2 then None
    else
      var meta :- Json.DecodeMetadata(parts[0].body);
      Some(d + [DriveFile(newId, meta.name, meta.parent, false, parts[1].body)])
  }

  // ---------------------------------------------------------------------------
  // How the requests change the query's answer

  /** Rewriting content changes no query answer. */
  lemma {:induction false} SetContentKeepsListing(d: Drive, id: FileId, content: string, folder: string)
    ensures ListMeta(SetContent(d, id, content), folder) == ListMeta(d, folder)
  {
    if |d| > 0 {
      var r := SetContent(d, id, content);
      assert r[1..] == SetContent(d[1..], id, content);
      SetContentKeepsListing(d[1..], id, content, folder);
    }
  }

  /** Removing an id removes exactly its handles from every query answer. */
  lemma {:induction false} RemoveShrinksListing(d: Drive, id: FileId, folder: string)
    ensures |ListMeta(Remove(d, id), folder)| <= |ListMeta(d, folder)|
    ensures forall i :: 0 <= i < |ListMeta(Remove(d, id), folder)| ==> ListMeta(Remove(d, id), folder)[i].id != id
    ensures (forall i :: 0 <= i < |ListMeta(d, folder)| ==> ListMeta(d, folder)[i].id == id)
              ==> ListMeta(Remove(d, id), folder) == []
  {
    if |d| > 0 {
      var rest := Remove(d[1..], id);
      RemoveShrinksListing(d[1..], id, folder);
      if d[0].id == id {
        assert Remove(d, id) == rest;
        if IsMetaOf(d[0], folder) {
          assert ListMeta(d[1..], folder) == ListMeta(d, folder)[1..];
        } else {
          assert ListMeta(d, folder) == ListMeta(d[1..], folder);
        }
      } else {
        assert Remove(d, id) == [d[0]] + rest;
        assert ([d[0]] + rest)[1..] == rest;
        if IsMetaOf(d[0], folder) {
          assert ListMeta(Remove(d, id), folder) == [HandleOf(d[0])] + ListMeta(rest, folder);
          assert ListMeta(d, folder) == [HandleOf(d[0])] + ListMeta(d[1..], folder);
          assert ListMeta(d, folder)[0].id != id;
        } else {
          assert ListMeta(Remove(d, id), folder) == ListMeta(rest, folder);
          assert ListMeta(d, folder) == ListMeta(d[1..], folder);
        }
      }
    }
  }

  /** Appending a file adds its handle at the end of the answers it matches. */
  lemma {:induction false} AppendListing(d: Drive, f: DriveFile, folder: string)
    ensures ListMeta(d + [f], folder) == ListMeta(d, folder) + (if IsMetaOf(f, folder) then [HandleOf(f)] else [])
  {
    if |d| == 0 {
      assert d + [f] == [f];
      assert [f][1..] == [];
    } else {
      var head := if IsMetaOf(d[0], folder) then [HandleOf(d[0])] else [];
      var tail := if IsMetaOf(f, folder) then [HandleOf(f)] else [];
      assert (d + [f])[0] == d[0];
      assert (d + [f])[1..] == d[1..] + [f];
      assert ListMeta(d + [f], folder) == head + ListMeta(d[1..] + [f], folder);
      AppendListing(d[1..], f, folder);
      assert head + (ListMeta(d[1..], folder) + tail) == (head + ListMeta(d[1..], folder)) + tail;
    }
  }

  /** Every matching file is listed: the converse of `ListedFilesExist`. */
  lemma {:induction false} MatchingFilesListed(d: Drive, folder: string, j: nat)
    requires j < |d| && IsMetaOf(d[j], folder)
    ensures HandleOf(d[j]) in ListMeta(d, folder)
  {
    var head := if IsMetaOf(d[0], folder) then [HandleOf(d[0])] else [];
    assert ListMeta(d, folder) == head + ListMeta(d[1..], folder);
    if j > 0 {
      assert d[j] == d[1..][j - 1];
      MatchingFilesListed(d[1..], folder, j - 1);
    }
  }

  /** The file just appended under a fresh id is the one found by that id. */
  lemma {:induction false} LookupAppended(d: Drive, f: DriveFile)
    requires Fresh(d, f.id)
    ensures Lookup(d + [f], f.id) == Some(f)
  {
    if |d| == 0 {
      assert d + [f] == [f];
    } else {
      assert (d + [f])[1..] == d[1..] + [f];
      LookupAppended(d[1..], f);
    }
  }

  /** After rewriting a file's content, reading it by id yields the new content. */
  lemma {:induction false} LookupAfterSetContent(d: Drive, id: FileId, content: string)
    requires Lookup(d, id).Some?
    ensures Lookup(SetContent(d, id, content), id) == Some(Lookup(d, id).value.(content := content))
  {
    var r := SetContent(d, id, content);
    if d[0].id != id {
      assert r[1..] == SetContent(d[1..], id, content);
      LookupAfterSetContent(d[1..], id, content);
    }
  }
}
