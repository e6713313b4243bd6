/** The local store adapter (src/utils/indexedDB.ts): a database with an
    `images` store and a `folders` store, both keyed by the record's `id`,
    opened lazily through a module-level handle. The stores are maps from key
    to record; `add` has the no-overwrite and `put` the overwrite semantics of
    the object-store storage operation of the W3C Indexed Database API. */
module GalleryStore {
  import opened Records
  import Seqs

  /** The records a `getAll` on a store keyed by `idOf` hands back, each exactly once. */
  method Enumerate<T>(m: map<string, T>, idOf: T -> string) returns (r: seq<T>)
    requires forall k :: k in m ==> idOf(m[k]) == k
    ensures Enumerates(r, m, idOf)
    ensures |r| == |m|
  {
    r := [];
    var rest := m.Keys;
    while rest != {}
      invariant rest <= m.Keys
      invariant |r| + |rest| == |m|
      invariant forall i :: 0 <= i < |r| ==> idOf(r[i]) in m && m[idOf(r[i])] == r[i] && idOf(r[i]) !in rest
      invariant forall i, j :: 0 <= i < j < |r| ==> idOf(r[i]) != idOf(r[j])
      invariant forall k :: k in m && k !in rest ==> exists i :: 0 <= i < |r| && idOf(r[i]) == k
      decreases rest
    {
      var k :| k in rest;
      var prev := r;
      r := r + [m[k]];
      rest := rest - {k};
      forall k' | k' in m && k' !in rest
        ensures exists i :: 0 <= i < |r| && idOf(r[i]) == k'
      {
        if k' == k {
          assert idOf(r[|prev|]) == k';
        } else {
          var i :| 0 <= i < |prev| && idOf(prev[i]) == k';
          assert r[i] == prev[i];
        }
      }
    }
    assert m.Keys == m.Keys - rest;
  }

  /** The key of the `by-folder` index on the images store. */
  function InFolder(folderId: string): Image -> bool
  {
    (img: Image) => img.folder == folderId
  }

  /** `r` lists exactly the stored images whose folder is `folderId`, each once. */
  ghost predicate InFolderListing(r: seq<Image>, m: map<string, Image>, folderId: string)
  {
    && (forall i :: 0 <= i < |r| ==> r[i].id in m && m[r[i].id] == r[i] && r[i].folder == folderId)
    && (forall i, j :: 0 <= i < j < |r| ==> r[i].id != r[j].id)
    && (forall k :: k in m && m[k].folder == folderId ==> m[k] in r)
  }

  /** Filtering a full listing of the images store by folder gives the index lookup. */
  lemma ByFolderListing(all: seq<Image>, m: map<string, Image>, folderId: string)
    requires Enumerates(all, m, ImageId)
    ensures InFolderListing(Seqs.Filter(all, InFolder(folderId)), m, folderId)
  {
    var p := InFolder(folderId);
    var r := Seqs.Filter(all, p);
    forall i | 0 <= i < |r| ensures r[i] in all && p(r[i]) {
      Seqs.FilterMember(all, p, r[i]);
    }
    forall k | k in m && m[k].folder == folderId ensures m[k] in r {
      var i :| 0 <= i < |all| && all[i].id == k;
      Seqs.FilterMember(all, p, m[k]);
    }
    assert Seqs.Distinct(all) by {
      forall i, j | 0 <= i < j < |all| ensures all[i] != all[j] {
        assert ImageId(all[i]) != ImageId(all[j]);
      }
    }
    Seqs.FilterDistinct(all, p);
  }

  /** After `add` or `put` of `img`, a full listing holds `img` at exactly one position and no other record with its id. */
  lemma ListingAfterPut(r: seq<Image>, m: map<string, Image>, img: Image)
    requires Enumerates(r, m[img.id := img], ImageId)
    ensures exists i :: 0 <= i < |r| && r[i] == img
    ensures forall i, j :: 0 <= i < |r| && 0 <= j < |r| && r[i] == img && r[j] == img ==> i == j
    ensures forall i :: 0 <= i < |r| && r[i].id == img.id ==> r[i] == img
  {
    var m' := m[img.id := img];
    assert img.id in m';
    var i :| 0 <= i < |r| && ImageId(r[i]) == img.id;
    assert r[i] == m'[img.id];
    forall x | 0 <= x < |r| && r[x].id == img.id ensures r[x] == img {
      assert ImageId(r[x]) in m' && m'[ImageId(r[x])] == r[x];
    }
  }

  class GalleryDB {
    /** Whether the module-level handle `db` has been assigned. */
    var isOpen: bool
    /** How many times the database has actually been opened. */
    ghost var opens: nat
    var images: map<string, Image>
    var folders: map<string, Folder>

    /** The handle is opened at most once, and every record sits under its own id (keyPath 'id'). */
    ghost predicate Valid()
      reads this
    {
      && opens == (if isOpen then 1 else 0)
      && (forall k :: k in images ==> images[k].id == k)
      && (forall k :: k in folders ==> folders[k].id == k)
    }

    /** A database that has never been opened; the upgrade step creates both stores empty. */
    constructor ()
      ensures Valid() && !isOpen
      ensures images == map[] && folders == map[]
    {
      isOpen := false;
      opens := 0;
      images := map[];
      folders := map[];
    }

    /** `initDB`: opens the database only while the handle is unset. */
    method InitDB()
      requires Valid()
      modifies this
      ensures Valid() && isOpen
      ensures opens == old(opens) + (if old(isOpen) then 0 else 1)
      ensures images == old(images) && folders == old(folders)
    {
      if !isOpen {
        isOpen := true;
        opens := opens + 1;
      }
    }

    method GetAllImages() returns (r: seq<Image>)
      requires Valid()
      modifies this
      ensures Valid() && isOpen
      ensures images == old(images) && folders == old(folders)
      ensures Enumerates(r, images, ImageId)
    {
      InitDB();
      r := Enumerate(images, ImageId);
    }

    /** `getAllFromIndex('images', 'by-folder', folderId)`. */
    method GetImagesByFolder(folderId: string) returns (r: seq<Image>)
      requires Valid()
      modifies this
      ensures Valid() && isOpen
      ensures images == old(images) && folders == old(folders)
      ensures InFolderListing(r, images, folderId)
    {
      InitDB();
      var all := Enumerate(images, ImageId);
      r := Seqs.Filter(all, InFolder(folderId));
      ByFolderListing(all, images, folderId);
    }

    /** `addImage`: inserts under `image.id`; rejected when that key is already present. */
    method AddImage(image: Image) returns (ok: bool)
      requires Valid()
      modifies this
      ensures Valid() && isOpen && folders == old(folders)
      ensures ok <==> image.id !in old(images)
      ensures images == if ok then old(images)[image.id := image] else old(images)
    {
      InitDB();
      ok := image.id !in images;
      if ok {
        images := images[image.id := image];
      }
    }

    /** `updateImage`: upsert under `image.id`. */
    method UpdateImage(image: Image)
      requires Valid()
      modifies this
      ensures Valid() && isOpen && folders == old(folders)
      ensures images == old(images)[image.id := image]
    {
      InitDB();
      images := images[image.id := image];
    }

    /** `deleteImage`: removes the key; an absent key is left absent. */
    method DeleteImage(id: string)
      requires Valid()
      modifies this
      ensures Valid() && isOpen && folders == old(folders)
      ensures images == old(images) - {id}
    {
      InitDB();
      images := images - {id};
    }

    method GetAllFolders() returns (r: seq<Folder>)
      requires Valid()
      modifies this
      ensures Valid() && isOpen
      ensures images == old(images) && folders == old(folders)
      ensures Enumerates(r, folders, FolderId)
    {
      InitDB();
      r := Enumerate(folders, FolderId);
    }

    /** `addFolder`: inserts under `folder.id`; rejected when that key is already present. */
    method AddFolder(folder: Folder) returns (ok: bool)
      requires Valid()
      modifies this
      ensures Valid() && isOpen && images == old(images)
      ensures ok <==> folder.id !in old(folders)
      ensures folders == if ok then old(folders)[folder.id := folder] else old(folders)
    {
      InitDB();
      ok := folder.id !in folders;
      if ok {
        folders := folders[folder.id := folder];
      }
    }

    /** `updateFolder`: upsert under `folder.id`. */
    method UpdateFolder(folder: Folder)
      requires Valid()
      modifies this
      ensures Valid() && isOpen && images == old(images)
      ensures folders == old(folders)[folder.id := folder]
    {
      InitDB();
      folders := folders[folder.id := folder];
    }

    /** `deleteFolder`: removes the key; an absent key is left absent. */
    method DeleteFolder(id: string)
      requires Valid()
      modifies this
      ensures Valid() && isOpen && images == old(images)
      ensures folders == old(folders) - {id}
    {
      InitDB();
      folders := folders - {id};
    }
  }
}
