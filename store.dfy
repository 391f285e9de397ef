/** The content tables and the server actions of src/lib/actions.ts.

    The hosted database is modelled as one object whose fields are its six
    tables. Every action issues one update, insert or delete filtered by id;
    the error the database may report instead is an input (`err`), and when it
    is present the action returns `{ success: false, error }` and the tables
    are unchanged. The schema's foreign keys, which the comment on `deletePost`
    relies on, are part of the model: attachments and join rows are removed
    with the post, category or tag they refer to (ON DELETE CASCADE), and an
    insert that would point at a missing row or repeat a join pair fails. */
module Store {
  import opened Common

  datatype Status = Draft | Scheduled | Published

  /** The columns of a `posts` row other than its id. */
  datatype PostData = PostData(
    title_mm: string, title_en: string, slug: string,
    content_mm: string, content_en: string,
    excerpt_mm: string, excerpt_en: string,
    status: Status, featured: bool, cover_image_url: string,
    published_at: Option<string>, updated_at: Option<string>)

  datatype Post = Post(id: string, data: PostData)

  datatype Category = Category(
    id: string, name_mm: string, name_en: Option<string>, slug: string,
    description: Option<string>, created_at: string)

  datatype Tag = Tag(id: string, name_mm: string, name_en: Option<string>, slug: string)

  datatype Attachment = Attachment(
    id: string, post_id: string, title_mm: string, title_en: string,
    kind: string, drive_url: string, file_size: string)

  /** A `post_categories` or `post_tags` row. */
  datatype Link = Link(post: string, other: string)

  /** The fields of an `updateCategory` call; an absent field is not sent. */
  datatype CategoryPatch = CategoryPatch(
    name_mm: Option<string>, name_en: Option<string>,
    slug: Option<string>, description: Option<string>)

  const ForeignKeyViolation := "violates foreign key constraint"
  const DuplicateKey := "duplicate key value violates unique constraint"

  // ---------------------------------------------------------------------
  // Row updates
  // ---------------------------------------------------------------------

  /** The update `publishPost` sends: status `published`, and both
      `published_at` and `updated_at` set to now, overwriting earlier values. */
  function Publish(p: PostData, now: string): (q: PostData)
    ensures q.status == Published && q.published_at == Some(now) && q.updated_at == Some(now)
    ensures q.(status := p.status, published_at := p.published_at, updated_at := p.updated_at) == p
  {
    p.(status := Published, published_at := Some(now), updated_at := Some(now))
  }

  /** The update `unpublishPost` sends: status `draft` and `updated_at`; the
      publish time is kept. */
  function Unpublish(p: PostData, now: string): (q: PostData)
    ensures q.status == Draft && q.updated_at == Some(now)
    ensures q.published_at == p.published_at
    ensures q.(status := p.status, updated_at := p.updated_at) == p
  {
    p.(status := Draft, updated_at := Some(now))
  }

  /** `update(data)` on a category: only the fields present in the patch
      change. */
  function ApplyPatch(c: Category, patch: CategoryPatch): (d: Category)
    ensures d.id == c.id && d.created_at == c.created_at
    ensures d.name_mm == (if patch.name_mm.Some? then patch.name_mm.value else c.name_mm)
    ensures d.name_en == (if patch.name_en.Some? then patch.name_en else c.name_en)
    ensures d.slug == (if patch.slug.Some? then patch.slug.value else c.slug)
    ensures d.description == (if patch.description.Some? then patch.description else c.description)
  {
    Category(
      c.id,
      if patch.name_mm.Some? then patch.name_mm.value else c.name_mm,
      if patch.name_en.Some? then patch.name_en else c.name_en,
      if patch.slug.Some? then patch.slug.value else c.slug,
      if patch.description.Some? then patch.description else c.description,
      c.created_at)
  }

  /** The category row `createCategory` inserts: an empty or absent English
      name or description is stored as `null`. */
  function NewCategory(id: string, name_mm: string, name_en: Option<string>, slug: string,
                       description: Option<string>, now: string): (c: Category)
    ensures c.id == id && c.name_mm == name_mm && c.slug == slug && c.created_at == now
    ensures c.name_en == None <==> (name_en == None || name_en == Some(""))
    ensures c.name_en.Some? ==> c.name_en == name_en
    ensures c.description == None <==> (description == None || description == Some(""))
    ensures c.description.Some? ==> c.description == description
  {
    Category(id, name_mm, NonEmptyOpt(name_en), slug, NonEmptyOpt(description), now)
  }

  /** The tag row `createTag` inserts: an empty or absent English name is
      stored as `null`. */
  function NewTag(id: string, name_mm: string, name_en: Option<string>, slug: string): (t: Tag)
    ensures t.id == id && t.name_mm == name_mm && t.slug == slug
    ensures t.name_en == None <==> (name_en == None || name_en == Some(""))
    ensures t.name_en.Some? ==> t.name_en == name_en
  {
    Tag(id, name_mm, NonEmptyOpt(name_en), slug)
  }

  /** The join rows of every post except `postId`. */
  function LinksNotOf(links: set<Link>, postId: string): (r: set<Link>)
    ensures forall l :: l in r <==> l in links && l.post != postId
  {
    set l | l in links && l.post != postId
  }

  /** The join rows that name `other` on their second side are dropped. */
  function LinksNotTo(links: set<Link>, other: string): (r: set<Link>)
    ensures forall l :: l in r <==> l in links && l.other != other
  {
    set l | l in links && l.other != other
  }

  /** One join row per listed id. */
  function LinksFor(postId: string, others: seq<string>): (r: set<Link>)
    ensures forall l :: l in r <==> l.post == postId && l.other in others
  {
    set o | o in others :: Link(postId, o)
  }

  /** The ids a post is linked to. */
  function LinkedTo(links: set<Link>, postId: string): (r: set<string>)
    ensures forall o :: o in r <==> Link(postId, o) in links
  {
    set l | l in links && l.post == postId :: l.other
  }

  function AttachmentsNotOf(attachments: map<string, Attachment>, postId: string): (r: map<string, Attachment>)
    ensures forall id :: id in r <==> id in attachments && attachments[id].post_id != postId
    ensures forall id :: id in r ==> r[id] == attachments[id]
  {
    map id | id in attachments && attachments[id].post_id != postId :: attachments[id]
  }

  /** Publishing and unpublishing, as one transition: only the status and
      the time stamps change, and unpublishing keeps the publish time. */
  lemma PublishUnpublishKeepsContent(p: PostData, t1: string, t2: string)
    ensures Unpublish(Publish(p, t1), t2).published_at == Some(t1)
    ensures Unpublish(Publish(p, t1), t2).status == Draft
    ensures Publish(Unpublish(p, t1), t2) == Publish(p, t2)
  {
  }

  // ---------------------------------------------------------------------
  // The tables
  // ---------------------------------------------------------------------

  class ContentStore {
    var posts: map<string, Post>
    var categories: map<string, Category>
    var tags: map<string, Tag>
    var attachments: map<string, Attachment>
    var postCategories: set<Link>
    var postTags: set<Link>

    /** Rows are stored under their own id and no row refers to a missing
        one: the schema's primary and foreign keys. */
    ghost predicate Valid()
      reads this
    {
      && (forall id :: id in posts ==> posts[id].id == id)
      && (forall id :: id in categories ==> categories[id].id == id)
      && (forall id :: id in tags ==> tags[id].id == id)
      && (forall id :: id in attachments ==> attachments[id].id == id && attachments[id].post_id in posts)
      && (forall l :: l in postCategories ==> l.post in posts && l.other in categories)
      && (forall l :: l in postTags ==> l.post in posts && l.other in tags)
    }

    constructor ()
      ensures Valid()
      ensures posts == map[] && categories == map[] && tags == map[] && attachments == map[]
      ensures postCategories == {} && postTags == {}
    {
      posts, categories, tags, attachments := map[], map[], map[], map[];
      postCategories, postTags := {}, {};
    }

    // ----- posts -----

    /** `deletePost`: the post row goes, and with it (by the cascading
        foreign keys) its attachments and its category and tag links. */
    method DeletePost(postId: string, err: Option<string>) returns (r: Result<()>)
      requires Valid()
      modifies this
      ensures Valid()
      ensures err.Some? ==> r == Failure(err.value)
      ensures err.None? ==> r == Success(())
      ensures err.Some? ==>
                posts == old(posts) && attachments == old(attachments)
                && postCategories == old(postCategories) && postTags == old(postTags)
      ensures err.None? ==> posts == old(posts) - {postId}
      ensures err.None? ==> attachments == AttachmentsNotOf(old(attachments), postId)
      ensures err.None? ==> postCategories == LinksNotOf(old(postCategories), postId)
      ensures err.None? ==> postTags == LinksNotOf(old(postTags), postId)
      ensures categories == old(categories) && tags == old(tags)
    {
      if err.Some? {
        return Failure(err.value);
      }
      posts := posts - {postId};
      attachments := AttachmentsNotOf(attachments, postId);
      postCategories := LinksNotOf(postCategories, postId);
      postTags := LinksNotOf(postTags, postId);
      r := Success(());
    }

    /** `publishPost`: an update filtered by id; no matching row is not an
        error. */
    method PublishPost(postId: string, now: string, err: Option<string>) returns (r: Result<()>)
      requires Valid()
      modifies this
      ensures Valid()
      ensures err.Some? ==> r == Failure(err.value) && posts == old(posts)
      ensures err.None? ==> r == Success(())
      ensures err.None? && postId in old(posts) ==>
                posts == old(posts)[postId := Post(postId, Publish(old(posts)[postId].data, now))]
      ensures postId !in old(posts) ==> posts == old(posts)
      ensures categories == old(categories) && tags == old(tags) && attachments == old(attachments)
      ensures postCategories == old(postCategories) && postTags == old(postTags)
    {
      if err.Some? {
        return Failure(err.value);
      }
      if postId in posts {
        posts := posts[postId := Post(postId, Publish(posts[postId].data, now))];
      }
      r := Success(());
    }

    /** `unpublishPost`. */
    method UnpublishPost(postId: string, now: string, err: Option<string>) returns (r: Result<()>)
      requires Valid()
      modifies this
      ensures Valid()
      ensures err.Some? ==> r == Failure(err.value) && posts == old(posts)
      ensures err.None? ==> r == Success(())
      ensures err.None? && postId in old(posts) ==>
                posts == old(posts)[postId := Post(postId, Unpublish(old(posts)[postId].data, now))]
      ensures postId !in old(posts) ==> posts == old(posts)
      ensures categories == old(categories) && tags == old(tags) && attachments == old(attachments)
      ensures postCategories == old(postCategories) && postTags == old(postTags)
    {
      if err.Some? {
        return Failure(err.value);
      }
      if postId in posts {
        posts := posts[postId := Post(postId, Unpublish(posts[postId].data, now))];
      }
      r := Success(());
    }

    /** The post form's `upsert(postData).select().single()`: the row with the
        given id is written (inserted or replaced); without an id the database
        assigns `newId`. Returns the written row. */
    method UpsertPost(id: Option<string>, data: PostData, newId: string, err: Option<string>)
      returns (r: Result<Post>)
      requires Valid()
      requires id.None? ==> newId !in posts
      modifies this
      ensures Valid()
      ensures err.Some? ==> r == Failure(err.value) && posts == old(posts)
      ensures err.None? ==> r == Success(Post(if id.Some? then id.value else newId, data))
      ensures err.None? ==> posts == old(posts)[r.data.id := r.data]
      ensures categories == old(categories) && tags == old(tags) && attachments == old(attachments)
      ensures postCategories == old(postCategories) && postTags == old(postTags)
    {
      if err.Some? {
        return Failure(err.value);
      }
      var key := if id.Some? then id.value else newId;
      var row := Post(key, data);
      posts := posts[key := row];
      r := Success(row);
    }

    /** `delete().eq("post_id", postId)` on `post_categories`. */
    method DeleteCategoryLinksOf(postId: string)
      requires Valid()
      modifies this
      ensures Valid()
      ensures postCategories == LinksNotOf(old(postCategories), postId)
      ensures posts == old(posts) && categories == old(categories) && tags == old(tags)
      ensures attachments == old(attachments) && postTags == old(postTags)
    {
      postCategories := LinksNotOf(postCategories, postId);
    }

    /** A bulk `insert` of one `post_categories` row per id. A bulk insert is
        one statement, so it inserts every row or none: it fails when a row
        would name a missing post or category, repeat an id of the batch or
        repeat an existing pair. */
    method InsertCategoryLinks(postId: string, categoryIds: seq<string>) returns (ok: bool)
      requires Valid()
      modifies this
      ensures Valid()
      ensures ok <==> CanInsertLinks(postId, categoryIds, old(posts), old(categories), old(postCategories))
      ensures postCategories == if ok then old(postCategories) + LinksFor(postId, categoryIds)
                                else old(postCategories)
      ensures posts == old(posts) && categories == old(categories) && tags == old(tags)
      ensures attachments == old(attachments) && postTags == old(postTags)
    {
      ok := CanInsertLinks(postId, categoryIds, posts, categories, postCategories);
      if ok {
        postCategories := postCategories + LinksFor(postId, categoryIds);
      }
    }

    // ----- categories -----

    /** `createCategory`: inserts the row and returns it. The database
        assigns the id `newId` and the creation time `now`. */
    method CreateCategory(name_mm: string, name_en: Option<string>, slug: string,
                          description: Option<string>, newId: string, now: string,
                          err: Option<string>) returns (r: Result<Category>)
      requires Valid()
      requires newId !in categories
      modifies this
      ensures Valid()
      ensures err.Some? ==> r == Failure(err.value) && categories == old(categories)
      ensures err.None? ==> r == Success(NewCategory(newId, name_mm, name_en, slug, description, now))
      ensures err.None? ==> categories == old(categories)[newId := r.data]
      ensures posts == old(posts) && tags == old(tags) && attachments == old(attachments)
      ensures postCategories == old(postCategories) && postTags == old(postTags)
    {
      if err.Some? {
        return Failure(err.value);
      }
      var row := NewCategory(newId, name_mm, name_en, slug, description, now);
      categories := categories[newId := row];
      r := Success(row);
    }

    /** `updateCategory`: only the supplied fields of the matching row
        change; other rows are untouched. */
    method UpdateCategory(categoryId: string, patch: CategoryPatch, err: Option<string>)
      returns (r: Result<()>)
      requires Valid()
      modifies this
      ensures Valid()
      ensures err.Some? ==> r == Failure(err.value) && categories == old(categories)
      ensures err.None? ==> r == Success(())
      ensures err.None? && categoryId in old(categories) ==>
                categories == old(categories)[categoryId := ApplyPatch(old(categories)[categoryId], patch)]
      ensures categoryId !in old(categories) ==> categories == old(categories)
      ensures posts == old(posts) && tags == old(tags) && attachments == old(attachments)
      ensures postCategories == old(postCategories) && postTags == old(postTags)
    {
      if err.Some? {
        return Failure(err.value);
      }
      if categoryId in categories {
        categories := categories[categoryId := ApplyPatch(categories[categoryId], patch)];
      }
      r := Success(());
    }

    /** `deleteCategory`: the row goes and the posts that used it are only
        detached (their join rows are removed by the cascading key). */
    method DeleteCategory(categoryId: string, err: Option<string>) returns (r: Result<()>)
      requires Valid()
      modifies this
      ensures Valid()
      ensures err.Some? ==> r == Failure(err.value)
      ensures err.None? ==> r == Success(())
      ensures err.Some? ==> categories == old(categories) && postCategories == old(postCategories)
      ensures err.None? ==> categories == old(categories) - {categoryId}
      ensures err.None? ==> postCategories == LinksNotTo(old(postCategories), categoryId)
      ensures posts == old(posts) && tags == old(tags) && attachments == old(attachments)
      ensures postTags == old(postTags)
    {
      if err.Some? {
        return Failure(err.value);
      }
      categories := categories - {categoryId};
      postCategories := LinksNotTo(postCategories, categoryId);
      r := Success(());
    }

    // ----- tags -----

    /** `createTag`: inserts the row and returns it; the database assigns
        the id `newId`. */
    method CreateTag(name_mm: string, name_en: Option<string>, slug: string, newId: string,
                     err: Option<string>) returns (r: Result<Tag>)
      requires Valid()
      requires newId !in tags
      modifies this
      ensures Valid()
      ensures err.Some? ==> r == Failure(err.value) && tags == old(tags)
      ensures err.None? ==> r == Success(NewTag(newId, name_mm, name_en, slug))
      ensures err.None? ==> tags == old(tags)[newId := r.data]
      ensures posts == old(posts) && categories == old(categories) && attachments == old(attachments)
      ensures postCategories == old(postCategories) && postTags == old(postTags)
    {
      if err.Some? {
        return Failure(err.value);
      }
      var row := NewTag(newId, name_mm, name_en, slug);
      tags := tags[newId := row];
      r := Success(row);
    }

    /** `deleteTag`: the row goes, and its join rows with it. */
    method DeleteTag(tagId: string, err: Option<string>) returns (r: Result<()>)
      requires Valid()
      modifies this
      ensures Valid()
      ensures err.Some? ==> r == Failure(err.value)
      ensures err.None? ==> r == Success(())
      ensures err.Some? ==> tags == old(tags) && postTags == old(postTags)
      ensures err.None? ==> tags == old(tags) - {tagId}
      ensures err.None? ==> postTags == LinksNotTo(old(postTags), tagId)
      ensures posts == old(posts) && categories == old(categories) && attachments == old(attachments)
      ensures postCategories == old(postCategories)
    {
      if err.Some? {
        return Failure(err.value);
      }
      tags := tags - {tagId};
      postTags := LinksNotTo(postTags, tagId);
      r := Success(());
    }

    // ----- attachments -----

    /** The attachment editor's `insert(row).select().single()`: the database
        assigns the id `newId`; a row naming a missing post fails. */
    method InsertAttachment(row: Attachment, newId: string, err: Option<string>)
      returns (r: Result<Attachment>)
      requires Valid()
      requires newId !in attachments
      modifies this
      ensures Valid()
      ensures r.Success? <==> err.None? && row.post_id in old(posts)
      ensures err.Some? ==> r == Failure(err.value)
      ensures err.None? && row.post_id !in old(posts) ==> r == Failure(ForeignKeyViolation)
      ensures r.Success? ==> r.data == row.(id := newId) && attachments == old(attachments)[newId := r.data]
      ensures r.Failure? ==> attachments == old(attachments)
      ensures posts == old(posts) && categories == old(categories) && tags == old(tags)
      ensures postCategories == old(postCategories) && postTags == old(postTags)
    {
      if err.Some? {
        return Failure(err.value);
      }
      if row.post_id !in posts {
        return Failure(ForeignKeyViolation);
      }
      var stored := row.(id := newId);
      attachments := attachments[newId := stored];
      r := Success(stored);
    }

    /** `deleteAttachment`. */
    method DeleteAttachment(attachmentId: string, err: Option<string>) returns (r: Result<()>)
      requires Valid()
      modifies this
      ensures Valid()
      ensures err.Some? ==> r == Failure(err.value) && attachments == old(attachments)
      ensures err.None? ==> r == Success(()) && attachments == old(attachments) - {attachmentId}
      ensures posts == old(posts) && categories == old(categories) && tags == old(tags)
      ensures postCategories == old(postCategories) && postTags == old(postTags)
    {
      if err.Some? {
        return Failure(err.value);
      }
      attachments := attachments - {attachmentId};
      r := Success(());
    }

    // ----- join rows -----

    /** `addPostCategory`: inserts exactly the pair, or fails on a missing
        post or category or an existing pair. */
    method AddPostCategory(postId: string, categoryId: string, err: Option<string>)
      returns (r: Result<()>)
      requires Valid()
      modifies this
      ensures Valid()
      ensures r == LinkInsertResult(postId in old(posts), categoryId in old(categories),
                                    Link(postId, categoryId) in old(postCategories), err)
      ensures postCategories == if r.Success? then old(postCategories) + {Link(postId, categoryId)}
                                else old(postCategories)
      ensures posts == old(posts) && categories == old(categories) && tags == old(tags)
      ensures attachments == old(attachments) && postTags == old(postTags)
    {
      r := LinkInsertResult(postId in posts, categoryId in categories,
                            Link(postId, categoryId) in postCategories, err);
      if r.Success? {
        postCategories := postCategories + {Link(postId, categoryId)};
      }
    }

    /** `removePostCategory`: deletes exactly the pair (if present). */
    method RemovePostCategory(postId: string, categoryId: string, err: Option<string>)
      returns (r: Result<()>)
      requires Valid()
      modifies this
      ensures Valid()
      ensures err.Some? ==> r == Failure(err.value) && postCategories == old(postCategories)
      ensures err.None? ==>
                r == Success(()) && postCategories == old(postCategories) - {Link(postId, categoryId)}
      ensures posts == old(posts) && categories == old(categories) && tags == old(tags)
      ensures attachments == old(attachments) && postTags == old(postTags)
    {
      if err.Some? {
        return Failure(err.value);
      }
      postCategories := postCategories - {Link(postId, categoryId)};
      r := Success(());
    }

    /** `addPostTag`. */
    method AddPostTag(postId: string, tagId: string, err: Option<string>) returns (r: Result<()>)
      requires Valid()
      modifies this
      ensures Valid()
      ensures r == LinkInsertResult(postId in old(posts), tagId in old(tags),
                                    Link(postId, tagId) in old(postTags), err)
      ensures postTags == if r.Success? then old(postTags) + {Link(postId, tagId)} else old(postTags)
      ensures posts == old(posts) && categories == old(categories) && tags == old(tags)
      ensures attachments == old(attachments) && postCategories == old(postCategories)
    {
      r := LinkInsertResult(postId in posts, tagId in tags, Link(postId, tagId) in postTags, err);
      if r.Success? {
        postTags := postTags + {Link(postId, tagId)};
      }
    }

    /** `removePostTag`. */
    method RemovePostTag(postId: string, tagId: string, err: Option<string>) returns (r: Result<()>)
      requires Valid()
      modifies this
      ensures Valid()
      ensures err.Some? ==> r == Failure(err.value) && postTags == old(postTags)
      ensures err.None? ==> r == Success(()) && postTags == old(postTags) - {Link(postId, tagId)}
      ensures posts == old(posts) && categories == old(categories) && tags == old(tags)
      ensures attachments == old(attachments) && postCategories == old(postCategories)
    {
      if err.Some? {
        return Failure(err.value);
      }
      postTags := postTags - {Link(postId, tagId)};
      r := Success(());
    }
  }

  /** The outcome of inserting one join row: the reported storage error, or
      the foreign-key or primary-key violation, or success. */
  function LinkInsertResult(postExists: bool, otherExists: bool, present: bool, err: Option<string>)
    : (r: Result<()>)
    ensures r.Success? <==> err.None? && postExists && otherExists && !present
    ensures err.Some? ==> r == Failure(err.value)
  {
    if err.Some? then Failure(err.value)
    else if !postExists || !otherExists then Failure(ForeignKeyViolation)
    else if present then Failure(DuplicateKey)
    else Success(())
  }

  /** When a bulk insert of join rows succeeds. */
  predicate CanInsertLinks(postId: string, ids: seq<string>, posts: map<string, Post>,
                           others: map<string, Category>, links: set<Link>)
  {
    && (ids != [] ==> postId in posts)
    && (forall i :: 0 <= i < |ids| ==> ids[i] in others && Link(postId, ids[i]) !in links)
    && Distinct(ids)
  }
}
