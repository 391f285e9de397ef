/** The post editor of src/components/admin/PostForm.tsx: the title/slug
    coupling, the category picker, the text splice behind the markdown
    toolbar, and saving (the upsert of the post row followed by replacing its
    category links). */
module PostForm {
  import opened Common
  import opened Slug
  import opened Store
  import MarkdownToolbar

  /** The form's `formData` state. An empty `published_at` means none. */
  datatype Form = Form(
    title_mm: string, title_en: string, slug: string,
    content_mm: string, content_en: string,
    excerpt_mm: string, excerpt_en: string,
    status: Status, featured: bool, cover_image_url: string,
    published_at: string)

  // ---------------------------------------------------------------------
  // Title and slug
  // ---------------------------------------------------------------------

  /** `handleTitleChange`: the slug follows the title while it is empty or
      still the one generated from the previous title; a slug the user typed
      is kept. Nothing else in the form changes. */
  function TitleChange(f: Form, title: string): (g: Form)
    ensures g.title_mm == title
    ensures (f.slug == "" || f.slug == GenerateSlug(f.title_mm)) ==> g.slug == GenerateSlug(title)
    ensures !(f.slug == "" || f.slug == GenerateSlug(f.title_mm)) ==> g.slug == f.slug
    ensures g.(title_mm := f.title_mm, slug := f.slug) == f
  {
    f.(title_mm := title, slug := NextSlug(f.slug, f.title_mm, title))
  }

  /** Once the slug is in sync with the title it stays so, and it is always a
      well-formed slug. */
  lemma TitleChangeKeepsSync(f: Form, title: string)
    requires f.slug == "" || f.slug == GenerateSlug(f.title_mm)
    ensures TitleChange(f, title).slug == GenerateSlug(TitleChange(f, title).title_mm)
    ensures IsSlug(TitleChange(f, title).slug)
  {
    FixedPointsAreSlugs(GenerateSlug(title));
    GenerateSlugIdempotent(title);
  }

  // ---------------------------------------------------------------------
  // Saving
  // ---------------------------------------------------------------------

  /** The `published_at` sent on save: now when the post is being published
      without a publish time, otherwise the form's value, with "" sent as
      `null`. */
  function PublishedAtOnSave(status: Status, publishedAt: string, now: string): (r: Option<string>)
    ensures status == Published && publishedAt == "" ==> r == Some(now)
    ensures !(status == Published && publishedAt == "") ==> r == NonEmpty(publishedAt)
  {
    if status == Published && publishedAt == "" then Some(now) else NonEmpty(publishedAt)
  }

  /** Unlike `publishPost`, which re-stamps the publish time on every call,
      saving a published post again keeps the time it was first published. */
  lemma SaveKeepsPublishTime(publishedAt: string, t1: string, t2: string)
    requires t1 != ""
    ensures PublishedAtOnSave(Published, publishedAt, t1).Some?
    ensures PublishedAtOnSave(Published, PublishedAtOnSave(Published, publishedAt, t1).value, t2)
            == PublishedAtOnSave(Published, publishedAt, t1)
    ensures publishedAt != "" ==> PublishedAtOnSave(Published, publishedAt, t1) == Some(publishedAt)
  {
  }

  /** Only publishing stamps a time: a draft or scheduled post saved without
      a publish time is stored with `null`. */
  lemma OnlyPublishingStamps(status: Status, now: string)
    ensures PublishedAtOnSave(status, "", now).Some? <==> status == Published
  {
  }

  /** The `postData` object: every form field, the publish time of
      `PublishedAtOnSave` and `updated_at` set to now. */
  function PostDataOf(f: Form, now: string): (d: PostData)
    ensures d.title_mm == f.title_mm && d.title_en == f.title_en && d.slug == f.slug
    ensures d.content_mm == f.content_mm && d.content_en == f.content_en
    ensures d.excerpt_mm == f.excerpt_mm && d.excerpt_en == f.excerpt_en
    ensures d.status == f.status && d.featured == f.featured && d.cover_image_url == f.cover_image_url
    ensures d.published_at == PublishedAtOnSave(f.status, f.published_at, now)
    ensures d.updated_at == Some(now)
  {
    PostData(f.title_mm, f.title_en, f.slug, f.content_mm, f.content_en,
             f.excerpt_mm, f.excerpt_en, f.status, f.featured, f.cover_image_url,
             PublishedAtOnSave(f.status, f.published_at, now), Some(now))
  }

  /** `handleSubmit`. The post row is upserted (the database assigns
      `newId` to a new post); if that fails the store is untouched and the
      error is shown. Otherwise the post's category links are deleted and the
      selection is inserted in one statement, whose result is not checked,
      and the editor goes to the posts list. */
  method Submit(store: ContentStore, postId: Option<string>, f: Form, selected: seq<string>,
                now: string, newId: string, err: Option<string>) returns (o: Outcome)
    requires store.Valid()
    requires postId.None? ==> newId !in store.posts
    modifies store
    ensures store.Valid()
    ensures err.Some? ==> o == Alert("Error: " + err.value)
    ensures err.Some? ==> store.posts == old(store.posts) && store.postCategories == old(store.postCategories)
    ensures err.None? ==> o == Navigate("/admin/posts")
    ensures err.None? ==>
              var id := if postId.Some? then postId.value else newId;
              && store.posts == old(store.posts)[id := Post(id, PostDataOf(f, now))]
              && LinksNotOf(store.postCategories, id) == LinksNotOf(old(store.postCategories), id)
              && (CanInsertLinks(id, selected, store.posts, store.categories, {}) ==>
                    LinkedTo(store.postCategories, id) == set c | c in selected)
              && (!CanInsertLinks(id, selected, store.posts, store.categories, {}) ==>
                    LinkedTo(store.postCategories, id) == {})
    ensures store.categories == old(store.categories) && store.tags == old(store.tags)
    ensures store.attachments == old(store.attachments) && store.postTags == old(store.postTags)
  {
    var saved := store.UpsertPost(postId, PostDataOf(f, now), newId, err);
    if saved.Failure? {
      return Alert("Error: " + saved.error);
    }
    var id := saved.data.id;
    ghost var before := store.postCategories;
    store.DeleteCategoryLinksOf(id);
    assert LinkedTo(store.postCategories, id) == {};
    if |selected| > 0 {
      var _ := store.InsertCategoryLinks(id, selected);
    }
    assert LinksNotOf(store.postCategories, id) == LinksNotOf(before, id);
    o := Navigate("/admin/posts");
  }

  /** The insert after a save succeeds whenever the selection names
      existing categories without repeats, as the picker keeps it. */
  lemma SelectionInserts(id: string, selected: seq<string>, posts: map<string, Post>,
                         categories: map<string, Category>)
    requires id in posts
    requires forall c :: c in selected ==> c in categories
    requires Distinct(selected)
    ensures CanInsertLinks(id, selected, posts, categories, {})
  {
  }

  // ---------------------------------------------------------------------
  // The category picker
  // ---------------------------------------------------------------------

  /** `ids.filter(x => x !== id)`. */
  function Remove(ids: seq<string>, id: string): (r: seq<string>)
    ensures id !in r
    ensures forall x :: x != id ==> (x in r <==> x in ids)
    ensures |r| <= |ids|
    ensures id !in ids ==> r == ids
  {
    if ids == [] then []
    else if ids[0] == id then Remove(ids[1..], id)
    else [ids[0]] + Remove(ids[1..], id)
  }

  /** The filter runs over the list front to back, so it keeps the order of
      what it keeps. */
  lemma {:induction false} RemoveAppend(a: seq<string>, b: seq<string>, id: string)
    ensures Remove(a + b, id) == Remove(a, id) + Remove(b, id)
    decreases |a|
  {
    if a == [] {
      assert a + b == b;
    } else {
      assert (a + b)[1..] == a[1..] + b;
      RemoveAppend(a[1..], b, id);
    }
  }

  lemma {:induction false} RemoveKeepsDistinct(ids: seq<string>, id: string)
    ensures Distinct(ids) ==> Distinct(Remove(ids, id))
    decreases |ids|
  {
    if ids != [] && Distinct(ids) {
      assert Distinct(ids[1..]) by {
        forall i, j | 0 <= i < j < |ids[1..]| ensures ids[1..][i] != ids[1..][j] {
          assert ids[1..][i] == ids[i + 1] && ids[1..][j] == ids[j + 1];
        }
      }
      RemoveKeepsDistinct(ids[1..], id);
      var rest := Remove(ids[1..], id);
      if ids[0] != id {
        assert ids[0] !in ids[1..] by {
          forall k | 0 <= k < |ids[1..]| ensures ids[1..][k] != ids[0] {
            assert ids[1..][k] == ids[k + 1];
          }
        }
        assert ids[0] !in rest;
        var r := [ids[0]] + rest;
        forall i, j | 0 <= i < j < |r| ensures r[i] != r[j] {
          if i == 0 {
            assert r[j] == rest[j - 1];
            assert r[j] in rest;
          } else {
            assert r[i] == rest[i - 1] && r[j] == rest[j - 1];
          }
        }
      }
    }
  }

  /** `toggleCategory`: removes the id if it is selected, else appends it. */
  function ToggleCategory(selected: seq<string>, id: string): (r: seq<string>)
    ensures id in r <==> id !in selected
    ensures forall x :: x != id ==> (x in r <==> x in selected)
    ensures id !in selected ==> r == selected + [id]
    ensures Distinct(selected) ==> Distinct(r)
  {
    if id in selected then
      RemoveKeepsDistinct(selected, id);
      Remove(selected, id)
    else
      assert Distinct(selected) ==> Distinct(selected + [id]) by {
        if Distinct(selected) {
          var s := selected + [id];
          forall i, j | 0 <= i < j < |s| ensures s[i] != s[j] {
            if j == |selected| {
              assert s[i] == selected[i];
            } else {
              assert s[i] == selected[i] && s[j] == selected[j];
            }
          }
        }
      }
      selected + [id]
  }

  /** The other selected ids keep their order. */
  lemma ToggleKeepsOrder(selected: seq<string>, id: string)
    ensures Remove(ToggleCategory(selected, id), id) == Remove(selected, id)
  {
    if id !in selected {
      RemoveAppend(selected, [id], id);
      assert Remove([id], id) == [];
    }
  }

  /** Toggling twice restores the selection: exactly when the id was not
      selected, and up to moving the id to the end when it was. */
  lemma ToggleTwice(selected: seq<string>, id: string)
    ensures forall x :: x in ToggleCategory(ToggleCategory(selected, id), id) <==> x in selected
    ensures id !in selected ==> ToggleCategory(ToggleCategory(selected, id), id) == selected
    ensures id in selected ==>
              ToggleCategory(ToggleCategory(selected, id), id) == Remove(selected, id) + [id]
  {
    if id !in selected {
      RemoveAppend(selected, [id], id);
      assert Remove([id], id) == [];
    }
  }

  // ---------------------------------------------------------------------
  // The content editors' `onInsert`
  // ---------------------------------------------------------------------

  /** The `onInsert` handler of both content editors: the textarea's
      selection is replaced by `text` in the form's content. Without a
      textarea nothing changes. */
  function Splice(content: string, area: Option<MarkdownToolbar.TextArea>, text: string): (r: string)
    ensures area.None? ==> r == content
    ensures area.Some? && area.value.selectionStart <= area.value.selectionEnd <= |content| ==>
              r == content[..area.value.selectionStart] + text + content[area.value.selectionEnd..]
  {
    match area
    case None => content
    case Some(a) => Substring(content, 0, a.selectionStart) + text + SubstringFrom(content, a.selectionEnd)
  }

  /** A toolbar click on the content editor: the selection is wrapped in
      the markers, and the caret lands right after the selected text, just
      before the closing marker. */
  lemma ToolbarWrapsSelection(content: string, start: nat, end: nat, before: string, after: string)
    requires start <= end <= |content|
    ensures
      var area := MarkdownToolbar.TextArea(content, start, end);
      var ins := MarkdownToolbar.HandleClick(Some(area), before, after).value;
      var r := Splice(content, Some(area), ins.text);
      && r == content[..start] + before + content[start..end] + after + content[end..]
      && ins.cursor <= |r|
      && r[..ins.cursor] == content[..start] + before + content[start..end]
      && r[ins.cursor..] == after + content[end..]
  {
    var area := MarkdownToolbar.TextArea(content, start, end);
    var ins := MarkdownToolbar.HandleClick(Some(area), before, after).value;
    var left := content[..start] + before + content[start..end];
    var r := Splice(content, Some(area), ins.text);
    assert r == left + (after + content[end..]);
    assert ins.cursor == |left|;
  }
}
