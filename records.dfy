/** The record shapes persisted by the gallery (src/utils/indexedDB.ts). */
module Records {

  datatype Option<T> = None | Some(value: T)

  /** Descriptive attributes fixed when an image is uploaded. */
  datatype Attributes = Attributes(size: string, resolution: string, createdAt: string)

  /** An image record; `url` is the inline encoded content, `folder` a folder id or "default". */
  datatype Image = Image(
    id: string,
    name: string,
    url: string,
    tags: seq<string>,
    folder: string,
    attributes: Attributes)

  datatype Folder = Folder(id: string, name: string, isPublic: bool)

  function ImageId(img: Image): string { img.id }

  function FolderId(f: Folder): string { f.id }

  /** `list` holds every record of the keyed store `m` exactly once, as `idOf` keys them. */
  ghost predicate Enumerates<T>(list: seq<T>, m: map<string, T>, idOf: T -> string)
  {
    && (forall i :: 0 <= i < |list| ==> idOf(list[i]) in m && m[idOf(list[i])] == list[i])
    && (forall i, j :: 0 <= i < j < |list| ==> idOf(list[i]) != idOf(list[j]))
    && (forall k :: k in m ==> exists i :: 0 <= i < |list| && idOf(list[i]) == k)
  }
}
