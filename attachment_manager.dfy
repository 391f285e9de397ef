/** The download-link editor of src/components/admin/AttachmentManager.tsx:
    the post's attachments as a list held by the component, next to the
    `attachments` table it writes to. */
module AttachmentManager {
  import opened Common
  import opened Store

  /** The form's `formData` state. */
  datatype Fields = Fields(title_mm: string, kind: string, drive_url: string)

  const Reset := Fields("", "apk", "")

  /** The row `handleAdd` inserts (its id is assigned by the database): the
      Burmese title stands in for the English one and the size is not known. */
  function NewRow(postId: string, f: Fields): (a: Attachment)
    ensures a.post_id == postId && a.title_mm == f.title_mm && a.title_en == f.title_mm
    ensures a.kind == f.kind && a.drive_url == f.drive_url && a.file_size == "Unknown"
  {
    Attachment("", postId, f.title_mm, f.title_mm, f.kind, f.drive_url, "Unknown")
  }

  /** `list.filter(a => a.id !== id)`. */
  function RemoveId(list: seq<Attachment>, id: string): (r: seq<Attachment>)
    ensures forall a :: a in r <==> a in list && a.id != id
    ensures |r| <= |list|
    ensures (forall i :: 0 <= i < |list| ==> list[i].id != id) ==> r == list
  {
    if list == [] then []
    else if list[0].id == id then RemoveId(list[1..], id)
    else [list[0]] + RemoveId(list[1..], id)
  }

  /** The filter keeps the order of the entries it keeps. */
  lemma {:induction false} RemoveIdAppend(a: seq<Attachment>, b: seq<Attachment>, id: string)
    ensures RemoveId(a + b, id) == RemoveId(a, id) + RemoveId(b, id)
    decreases |a|
  {
    if a == [] {
      assert a + b == b;
    } else {
      assert (a + b)[1..] == a[1..] + b;
      RemoveIdAppend(a[1..], b, id);
    }
  }

  /** Removing an id after appending an entry with another id is the same as
      removing it first: a deletion never disturbs later additions. */
  lemma RemoveIdAfterAdd(list: seq<Attachment>, x: Attachment, id: string)
    requires x.id != id
    ensures RemoveId(list + [x], id) == RemoveId(list, id) + [x]
  {
    RemoveIdAppend(list, [x], id);
  }

  /** The component's state. */
  class Manager {
    const postId: string
    var attachments: seq<Attachment>
    var form: Fields
    var loading: bool

    constructor (postId: string, initial: seq<Attachment>)
      ensures this.postId == postId && attachments == initial && form == Reset && !loading
    {
      this.postId := postId;
      attachments := initial;
      form := Reset;
      loading := false;
    }

    /** `handleAdd`: insert the row; on success append the returned row and
        reset the form, on failure alert the message and keep both. */
    method Add(store: ContentStore, newId: string, err: Option<string>) returns (alert: Option<string>)
      requires store.Valid()
      requires newId !in store.attachments
      modifies this, store
      ensures store.Valid()
      ensures !loading
      ensures alert.None? <==> err.None? && postId in old(store.posts)
      ensures err.Some? ==> alert == Some(err.value)
      ensures alert.None? ==>
                var row := NewRow(postId, old(form)).(id := newId);
                && attachments == old(attachments) + [row]
                && form == Reset
                && store.attachments == old(store.attachments)[newId := row]
      ensures alert.Some? ==>
                attachments == old(attachments) && form == old(form)
                && store.attachments == old(store.attachments)
      ensures store.posts == old(store.posts) && store.categories == old(store.categories)
      ensures store.tags == old(store.tags)
      ensures store.postCategories == old(store.postCategories) && store.postTags == old(store.postTags)
    {
      loading := true;
      var result := store.InsertAttachment(NewRow(postId, form), newId, err);
      if result.Failure? {
        alert := Some(result.error);
      } else {
        attachments := attachments + [result.data];
        form := Reset;
        alert := None;
      }
      loading := false;
    }

    /** `handleDelete`: after a confirmed, successful delete every entry with
        the id leaves the list; a declined confirm or a failed delete
        changes nothing, and the failure is not reported. */
    method Delete(store: ContentStore, id: string, confirmed: bool, err: Option<string>)
      requires store.Valid()
      modifies this, store
      ensures store.Valid()
      ensures confirmed && err.None? ==>
                attachments == RemoveId(old(attachments), id)
                && store.attachments == old(store.attachments) - {id}
      ensures !(confirmed && err.None?) ==>
                attachments == old(attachments) && store.attachments == old(store.attachments)
      ensures form == old(form) && loading == old(loading)
      ensures store.posts == old(store.posts) && store.categories == old(store.categories)
      ensures store.tags == old(store.tags)
      ensures store.postCategories == old(store.postCategories) && store.postTags == old(store.postTags)
    {
      if !confirmed {
        return;
      }
      var result := store.DeleteAttachment(id, err);
      if result.Success? {
        attachments := RemoveId(attachments, id);
      }
    }
  }
}
