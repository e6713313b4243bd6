/** The collection view (src/pages/ImageCollection.tsx): folder creation and
    deletion, upload, selection and tag editing over in-memory lists that mirror
    the store. Each handler is one atomic step: the awaited store call, then the
    state updates. A store call that rejects ends the handler before any state
    update, as the thrown rejection does in the source. The clock (`Date.now()`,
    `new Date().toISOString()`) and the file reader are inputs. */
module ImageCollection {
  import opened Records
  import opened Text
  import Seqs
  import GalleryStore

  /** What the file picker supplies: the file's name and its size in bytes. */
  datatype FileInfo = FileInfo(name: string, size: nat)

  // ---------------------------------------------------------------- list transforms

  function NotFolder(id: string): Folder -> bool
  {
    (f: Folder) => f.id != id
  }

  /** `folders.filter(folder => folder.id !== id)`. */
  function RemoveFolderById(folders: seq<Folder>, id: string): (r: seq<Folder>)
    ensures forall f :: f in r <==> f in folders && f.id != id
    ensures forall f :: multiset(r)[f] == if f.id != id then multiset(folders)[f] else 0
    ensures Seqs.IsSubsequence(r, folders)
  {
    var r := Seqs.Filter(folders, NotFolder(id));
    assert forall f :: f in r <==> f in folders && f.id != id by {
      forall f ensures f in r <==> f in folders && f.id != id {
        Seqs.FilterMember(folders, NotFolder(id), f);
      }
    }
    r
  }

  function NotTag(tag: string): string -> bool
  {
    (t: string) => t != tag
  }

  /** `tags.filter(tag => tag !== tagToRemove)`: every copy goes, the rest keep their order and counts. */
  function WithoutTag(tags: seq<string>, tag: string): (r: seq<string>)
    ensures tag !in r
    ensures forall t :: t != tag ==> multiset(r)[t] == multiset(tags)[t]
    ensures Seqs.IsSubsequence(r, tags)
  {
    var r := Seqs.Filter(tags, NotTag(tag));
    assert multiset(r)[tag] == 0;
    r
  }

  /** Adding a tag and removing it again gives back the tags, when the tag was new. */
  lemma AddThenRemoveTag(tags: seq<string>, tag: string)
    ensures tag !in tags ==> WithoutTag(tags + [tag], tag) == tags
    ensures tag !in WithoutTag(tags + [tag], tag)
  {
    Seqs.FilterAppend(tags, [tag], NotTag(tag));
    Seqs.FilterDropsAll([tag], NotTag(tag));
    if tag !in tags {
      Seqs.FilterKeepsAll(tags, NotTag(tag));
    }
  }

  /** `images.map(img => img.id === imageId ? updated : img)`. */
  function ReplaceById(list: seq<Image>, id: string, updated: Image): (r: seq<Image>)
    ensures |r| == |list|
    ensures forall i :: 0 <= i < |list| && list[i].id != id ==> r[i] == list[i]
    ensures forall i :: 0 <= i < |list| && list[i].id == id ==> r[i] == updated
  {
    seq(|list|, i requires 0 <= i < |list| => if list[i].id == id then updated else list[i])
  }

  /** `${file.size} bytes`. */
  function SizeText(n: nat): string
  {
    Decimal(n) + " bytes"
  }

  /** The record an upload builds once the file has been read into `dataUrl`. */
  function UploadRecord(id: string, file: FileInfo, dataUrl: string, createdAt: string): (r: Image)
    ensures r.id == id && r.name == file.name && r.url == dataUrl
    ensures r.tags == [] && r.folder == "default"
    ensures r.attributes.resolution == "Unknown" && r.attributes.createdAt == createdAt
    ensures r.attributes.size == Decimal(file.size) + " bytes"
    ensures ParseLeadingInt(r.attributes.size) == file.size
  {
    ParseDecimal(file.size, " bytes");
    Image(id, file.name, dataUrl, [], "default", Attributes(SizeText(file.size), "Unknown", createdAt))
  }

  // ---------------------------------------------------------------- the lists keep mirroring the store

  lemma AppendKeepsMirror<T>(list: seq<T>, m: map<string, T>, x: T, idOf: T -> string)
    requires Enumerates(list, m, idOf)
    requires idOf(x) !in m
    ensures Enumerates(list + [x], m[idOf(x) := x], idOf)
  {
    var r := list + [x];
    var m' := m[idOf(x) := x];
    forall k | k in m' ensures exists i :: 0 <= i < |r| && idOf(r[i]) == k {
      if k == idOf(x) {
        assert idOf(r[|list|]) == k;
      } else {
        var i :| 0 <= i < |list| && idOf(list[i]) == k;
        assert r[i] == list[i];
      }
    }
  }

  /** Replacing the entry with `updated`'s id keeps the list a listing of the updated store. */
  lemma ReplaceKeepsMirror(list: seq<Image>, m: map<string, Image>, updated: Image)
    requires Enumerates(list, m, ImageId)
    requires updated.id in m
    ensures Enumerates(ReplaceById(list, updated.id, updated), m[updated.id := updated], ImageId)
    ensures updated in ReplaceById(list, updated.id, updated)
  {
    var r := ReplaceById(list, updated.id, updated);
    var m' := m[updated.id := updated];
    forall i | 0 <= i < |r| ensures ImageId(r[i]) in m' && m'[ImageId(r[i])] == r[i] {
      ReplaceAt(list, m, updated, i);
    }
    forall i, j | 0 <= i < j < |r| ensures ImageId(r[i]) != ImageId(r[j]) {
      ReplaceAt(list, m, updated, i);
      ReplaceAt(list, m, updated, j);
    }
    forall k | k in m' ensures exists i :: 0 <= i < |r| && ImageId(r[i]) == k {
      var i :| 0 <= i < |list| && ImageId(list[i]) == k;
      ReplaceAt(list, m, updated, i);
    }
    var j :| 0 <= j < |list| && ImageId(list[j]) == updated.id;
    ReplaceAt(list, m, updated, j);
  }

  /** One position of a replaced listing. */
  lemma ReplaceAt(list: seq<Image>, m: map<string, Image>, updated: Image, i: int)
    requires Enumerates(list, m, ImageId)
    requires 0 <= i < |list|
    ensures ImageId(ReplaceById(list, updated.id, updated)[i]) == ImageId(list[i])
    ensures ImageId(list[i]) in m && m[ImageId(list[i])] == list[i]
    ensures ReplaceById(list, updated.id, updated)[i]
      == if list[i].id == updated.id then updated else list[i]
  {
  }

  lemma RemoveKeepsMirror(list: seq<Folder>, m: map<string, Folder>, id: string)
    requires Enumerates(list, m, FolderId)
    ensures Enumerates(RemoveFolderById(list, id), m - {id}, FolderId)
  {
    var r := RemoveFolderById(list, id);
    forall i | 0 <= i < |r| ensures FolderId(r[i]) in m - {id} && (m - {id})[FolderId(r[i])] == r[i] {
      assert r[i] in r;
      var j :| 0 <= j < |list| && list[j] == r[i];
      assert FolderId(list[j]) in m;
    }
    assert Seqs.Distinct(list) by {
      forall i, j | 0 <= i < j < |list| ensures list[i] != list[j] {
        assert FolderId(list[i]) != FolderId(list[j]);
      }
    }
    Seqs.FilterDistinct(list, NotFolder(id));
    forall i, j | 0 <= i < j < |r| ensures FolderId(r[i]) != FolderId(r[j]) {
      assert r[i] in r && r[j] in r;
      var a :| 0 <= a < |list| && list[a] == r[i];
      var b :| 0 <= b < |list| && list[b] == r[j];
    }
    forall k | k in m - {id} ensures exists i :: 0 <= i < |r| && FolderId(r[i]) == k {
      var j :| 0 <= j < |list| && FolderId(list[j]) == k;
      assert list[j] in r;
    }
  }

  // ---------------------------------------------------------------- the view

  class CollectionView {
    const db: GalleryStore.GalleryDB
    var images: seq<Image>
    var folders: seq<Folder>
    var selected: Option<Image>
    var newFolderName: string
    var newTag: string

    /** The lists hold every stored record once, and the selection is one of the listed images. */
    ghost predicate Valid()
      reads this, db
    {
      && db.Valid()
      && Enumerates(images, db.images, ImageId)
      && Enumerates(folders, db.folders, FolderId)
      && (selected.Some? ==> selected.value in images)
    }

    /** Mounting: the lists are loaded from the store; nothing is selected, both inputs are empty. */
    constructor Mount(db: GalleryStore.GalleryDB)
      requires db.Valid()
      modifies db
      ensures Valid() && this.db == db
      ensures db.images == old(db.images) && db.folders == old(db.folders)
      ensures selected == None && newFolderName == "" && newTag == ""
    {
      var loadedImages := db.GetAllImages();
      var loadedFolders := db.GetAllFolders();
      this.db := db;
      images := loadedImages;
      folders := loadedFolders;
      selected := None;
      newFolderName := "";
      newTag := "";
    }

    /** The folder-name input's change handler. */
    method TypeFolderName(text: string)
      requires Valid()
      modifies this
      ensures Valid() && newFolderName == text
      ensures images == old(images) && folders == old(folders) && selected == old(selected)
      ensures newTag == old(newTag)
    {
      newFolderName := text;
    }

    /** The tag input's change handler. */
    method TypeTag(text: string)
      requires Valid()
      modifies this
      ensures Valid() && newTag == text
      ensures images == old(images) && folders == old(folders) && selected == old(selected)
      ensures newFolderName == old(newFolderName)
    {
      newTag := text;
    }

    /** `handleCreateFolder`, with `id` standing for `Date.now().toString()`. */
    method CreateFolder(id: string)
      requires Valid()
      modifies this, db
      ensures Valid()
      ensures images == old(images) && selected == old(selected) && newTag == old(newTag)
      ensures db.images == old(db.images)
      ensures old(newFolderName) == "" ==>
        folders == old(folders) && db.folders == old(db.folders) && newFolderName == ""
      ensures old(newFolderName) != "" && id !in old(db.folders) ==>
        && folders == old(folders) + [Folder(id, old(newFolderName), false)]
        && db.folders == old(db.folders)[id := Folder(id, old(newFolderName), false)]
        && newFolderName == ""
      ensures old(newFolderName) != "" && id in old(db.folders) ==>
        folders == old(folders) && db.folders == old(db.folders) && newFolderName == old(newFolderName)
    {
      if newFolderName != "" {
        var folder := Folder(id, newFolderName, false);
        var ok := db.AddFolder(folder);
        if ok {
          AppendKeepsMirror(folders, old(db.folders), folder, FolderId);
          folders := folders + [folder];
          newFolderName := "";
        }
      }
    }

    /** `handleDeleteFolder`: the folder goes from store and list; images keep their folder value. */
    method DeleteFolder(id: string)
      requires Valid()
      modifies this, db
      ensures Valid()
      ensures folders == RemoveFolderById(old(folders), id)
      ensures db.folders == old(db.folders) - {id}
      ensures images == old(images) && db.images == old(db.images) && selected == old(selected)
      ensures newFolderName == old(newFolderName) && newTag == old(newTag)
    {
      db.DeleteFolder(id);
      RemoveKeepsMirror(folders, old(db.folders), id);
      folders := RemoveFolderById(folders, id);
    }

    /** `handleImageSelect`: the user clicks one of the listed images. */
    method SelectImage(img: Image)
      requires Valid()
      requires img in images
      modifies this
      ensures Valid() && selected == Some(img)
      ensures images == old(images) && folders == old(folders)
      ensures newFolderName == old(newFolderName) && newTag == old(newTag)
    {
      selected := Some(img);
    }

    /** `handleAddTag`, called with the selected image's id. */
    method AddTag(imageId: string)
      requires Valid()
      requires selected.Some? ==> imageId == selected.value.id
      modifies this, db
      ensures Valid()
      ensures folders == old(folders) && db.folders == old(db.folders)
      ensures newFolderName == old(newFolderName)
      ensures old(newTag) == "" || old(selected).None? ==>
        && images == old(images) && db.images == old(db.images)
        && selected == old(selected) && newTag == old(newTag)
      ensures old(newTag) != "" && old(selected).Some? ==>
        var updated := old(selected).value.(tags := old(selected).value.tags + [old(newTag)]);
        && db.images == old(db.images)[imageId := updated]
        && images == ReplaceById(old(images), imageId, updated)
        && selected == Some(updated)
        && newTag == ""
    {
      if newTag != "" && selected.Some? {
        var updated := selected.value.(tags := selected.value.tags + [newTag]);
        assert selected.value.id in db.images;
        db.UpdateImage(updated);
        ReplaceKeepsMirror(images, old(db.images), updated);
        images := ReplaceById(images, imageId, updated);
        selected := Some(updated);
        newTag := "";
      }
    }

    /** `handleRemoveTag`, called with the selected image's id and one of its tags. */
    method RemoveTag(imageId: string, tag: string)
      requires Valid()
      requires selected.Some? ==> imageId == selected.value.id
      modifies this, db
      ensures Valid()
      ensures folders == old(folders) && db.folders == old(db.folders)
      ensures newFolderName == old(newFolderName) && newTag == old(newTag)
      ensures old(selected).None? ==>
        images == old(images) && db.images == old(db.images) && selected == None
      ensures old(selected).Some? ==>
        var updated := old(selected).value.(tags := WithoutTag(old(selected).value.tags, tag));
        && db.images == old(db.images)[imageId := updated]
        && images == ReplaceById(old(images), imageId, updated)
        && selected == Some(updated)
        && tag !in db.images[imageId].tags
    {
      if selected.Some? {
        var updated := selected.value.(tags := WithoutTag(selected.value.tags, tag));
        assert selected.value.id in db.images;
        db.UpdateImage(updated);
        ReplaceKeepsMirror(images, old(db.images), updated);
        images := ReplaceById(images, imageId, updated);
        selected := Some(updated);
      }
    }

    /** `handleFileUpload` once the reader has produced `dataUrl`; `id` and `createdAt` come from the clock. */
    method UploadImage(file: Option<FileInfo>, id: string, dataUrl: string, createdAt: string)
      requires Valid()
      modifies this, db
      ensures Valid()
      ensures folders == old(folders) && db.folders == old(db.folders) && selected == old(selected)
      ensures newFolderName == old(newFolderName) && newTag == old(newTag)
      ensures file.None? || id in old(db.images) ==>
        images == old(images) && db.images == old(db.images)
      ensures file.Some? && id !in old(db.images) ==>
        var record := UploadRecord(id, file.value, dataUrl, createdAt);
        images == old(images) + [record] && db.images == old(db.images)[id := record]
    {
      if file.Some? {
        var record := UploadRecord(id, file.value, dataUrl, createdAt);
        var ok := db.AddImage(record);
        if ok {
          AppendKeepsMirror(images, old(db.images), record, ImageId);
          images := images + [record];
        }
      }
    }
  }
}
