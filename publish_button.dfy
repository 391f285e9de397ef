/** The publish/unpublish toggle of src/components/admin/PublishButton.tsx,
    which together with `publishPost` and `unpublishPost` is the status
    machine of a post. */
module PublishButton {
  import opened Common
  import opened Store

  /** The server action a click calls. */
  datatype Action = PublishAction | UnpublishAction

  /** The dispatch on the `currentStatus` prop: only a published post is
      unpublished; a draft or a scheduled post is published. */
  function Dispatch(currentStatus: Status): (a: Action)
    ensures a == UnpublishAction <==> currentStatus == Published
    ensures a == PublishAction <==> currentStatus.Draft? || currentStatus.Scheduled?
  {
    if currentStatus == Published then UnpublishAction else PublishAction
  }

  /** The row update the dispatched action performs. */
  function Apply(a: Action, p: PostData, now: string): (q: PostData)
    ensures a == PublishAction ==> q == Publish(p, now)
    ensures a == UnpublishAction ==> q == Unpublish(p, now)
  {
    match a
    case PublishAction => Publish(p, now)
    case UnpublishAction => Unpublish(p, now)
  }

  /** A toggle from `published` lands on `draft` keeping the publish time;
      from anything else it lands on `published` stamped with now. */
  lemma ToggleLanding(current: Status, p: PostData, now: string)
    ensures current == Published ==>
              Apply(Dispatch(current), p, now).status == Draft
              && Apply(Dispatch(current), p, now).published_at == p.published_at
    ensures current != Published ==>
              Apply(Dispatch(current), p, now).status == Published
              && Apply(Dispatch(current), p, now).published_at == Some(now)
    ensures Apply(Dispatch(current), p, now).updated_at == Some(now)
  {
  }

  /** Toggling a row twice with fresh props returns it to `published` or
      `draft` with the latest time stamp: the toggle flips between the two. */
  lemma ToggleTwiceFlips(p: PostData, t1: string, t2: string)
    requires p.status == Published || p.status == Draft
    ensures
      var once := Apply(Dispatch(p.status), p, t1);
      var twice := Apply(Dispatch(once.status), once, t2);
      twice.status == p.status && once.status != p.status
  {
  }

  /** The component's state. */
  class Button {
    var loading: bool

    constructor ()
      ensures !loading
    {
      loading := false;
    }

    /** `handleToggle`: dispatch on the prop, refresh on success, alert the
        error on failure; `loading` is cleared whatever the result. */
    method Toggle(store: ContentStore, postId: string, currentStatus: Status, now: string,
                  err: Option<string>) returns (o: Outcome)
      requires store.Valid()
      modifies this, store
      ensures store.Valid()
      ensures !loading
      ensures err.None? ==> o == Refresh
      ensures err.Some? ==> o == Alert("Error: " + err.value) && store.posts == old(store.posts)
      ensures err.None? && postId in old(store.posts) ==>
                store.posts == old(store.posts)[postId := Post(postId, Apply(Dispatch(currentStatus), old(store.posts)[postId].data, now))]
      ensures postId !in old(store.posts) ==> store.posts == old(store.posts)
      ensures store.categories == old(store.categories) && store.tags == old(store.tags)
      ensures store.attachments == old(store.attachments)
      ensures store.postCategories == old(store.postCategories) && store.postTags == old(store.postTags)
    {
      loading := true;
      var result;
      if currentStatus == Published {
        result := store.UnpublishPost(postId, now, err);
      } else {
        result := store.PublishPost(postId, now, err);
      }
      if result.Success? {
        o := Refresh;
      } else {
        o := Alert("Error: " + result.error);
      }
      loading := false;
    }
  }
}
