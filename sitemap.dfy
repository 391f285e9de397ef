/** The sitemap of src/app/sitemap.ts: four fixed pages, then one entry per
    category, then one per published post, each with a Burmese and an
    English alternate. */
module Sitemap {
  import opened Common

  /** The columns the sitemap selects from `posts` (published only). */
  datatype PostRow = PostRow(slug: string, updated_at: Option<string>, published_at: Option<string>)

  /** The columns it selects from `categories`. */
  datatype CategoryRow = CategoryRow(slug: string, created_at: string)

  datatype Frequency = Daily | Weekly | Monthly

  /** One sitemap entry; `my` and `en` are its language alternates. */
  datatype Entry = Entry(url: string, lastModified: Option<string>, changeFrequency: Frequency,
                         priority: real, my: string, en: string)

  const DefaultSiteUrl := "https://myanmarmuslimoasis.com"

  /** `process.env.NEXT_PUBLIC_SITE_URL || default`: an unset or empty
      variable falls back to the site's address. */
  function BaseUrl(env: Option<string>): (b: string)
    ensures env.Some? && env.value != "" ==> b == env.value
    ensures env.None? || env == Some("") ==> b == DefaultSiteUrl
  {
    match env
    case None => DefaultSiteUrl
    case Some(v) => OrElse(v, DefaultSiteUrl)
  }

  /** `a || b` on two nullable time stamps (a present time stamp is never
      the empty string). */
  function FirstPresent(a: Option<string>, b: Option<string>): (r: Option<string>)
    ensures a.Some? ==> r == a
    ensures a.None? ==> r == b
  {
    if a.Some? then a else b
  }

  /** The entry for a page reached at `/my<path>` and `/en<path>`. */
  function Page(base: string, path: string, lastModified: Option<string>, f: Frequency, priority: real): Entry
  {
    Entry(base + "/my" + path, lastModified, f, priority, base + "/my" + path, base + "/en" + path)
  }

  function PostEntry(base: string, p: PostRow): (e: Entry)
    ensures e.url == base + "/my/posts/" + p.slug
    ensures e.en == base + "/en/posts/" + p.slug
    ensures e.lastModified == FirstPresent(p.updated_at, p.published_at)
    ensures e.changeFrequency == Weekly && e.priority == 0.8
  {
    Page(base, "/posts/" + p.slug, FirstPresent(p.updated_at, p.published_at), Weekly, 0.8)
  }

  function CategoryEntry(base: string, c: CategoryRow): (e: Entry)
    ensures e.url == base + "/my/categories/" + c.slug
    ensures e.en == base + "/en/categories/" + c.slug
    ensures e.lastModified == Some(c.created_at)
    ensures e.changeFrequency == Weekly && e.priority == 0.6
  {
    Page(base, "/categories/" + c.slug, Some(c.created_at), Weekly, 0.6)
  }

  /** `(rows || [])`: a failed query contributes nothing. */
  function Rows<T>(rows: Option<seq<T>>): (r: seq<T>)
    ensures rows.None? ==> r == []
    ensures rows.Some? ==> r == rows.value
  {
    if rows.Some? then rows.value else []
  }

  /** `postUrls`: one entry per row, in the order of the rows. */
  function PostUrls(base: string, posts: seq<PostRow>): (r: seq<Entry>)
    ensures |r| == |posts|
    ensures forall i :: 0 <= i < |posts| ==> r[i] == PostEntry(base, posts[i])
  {
    if posts == [] then [] else [PostEntry(base, posts[0])] + PostUrls(base, posts[1..])
  }

  /** `categoryUrls`: one entry per row, in the order of the rows. */
  function CategoryUrls(base: string, categories: seq<CategoryRow>): (r: seq<Entry>)
    ensures |r| == |categories|
    ensures forall i :: 0 <= i < |categories| ==> r[i] == CategoryEntry(base, categories[i])
  {
    if categories == [] then [] else [CategoryEntry(base, categories[0])] + CategoryUrls(base, categories[1..])
  }

  /** `staticPages`: the home page (whose own URL is the bare base), the
      category index, the downloads page and the about page. `now` stands
      for `new Date()`. */
  function StaticPages(base: string, now: string): (r: seq<Entry>)
    ensures |r| == 4
    ensures r[0].url == base && r[0].my == base + "/my" && r[0].en == base + "/en"
    ensures r[0].changeFrequency == Daily && r[0].priority == 1.0
    ensures r[1].url == base + "/my/categories" && r[1].priority == 0.7 && r[1].changeFrequency == Weekly
    ensures r[2].url == base + "/my/downloads" && r[2].priority == 0.7 && r[2].changeFrequency == Weekly
    ensures r[3].url == base + "/my/about" && r[3].priority == 0.5 && r[3].changeFrequency == Monthly
    ensures forall i :: 0 <= i < 4 ==> r[i].lastModified == Some(now)
  {
    [ Page(base, "", Some(now), Daily, 1.0).(url := base),
      Page(base, "/categories", Some(now), Weekly, 0.7),
      Page(base, "/downloads", Some(now), Weekly, 0.7),
      Page(base, "/about", Some(now), Monthly, 0.5) ]
  }

  /** `sitemap()`, with the two query results as inputs. */
  function Build(base: string, now: string, posts: Option<seq<PostRow>>, categories: Option<seq<CategoryRow>>)
    : (r: seq<Entry>)
    ensures |r| == 4 + |Rows(categories)| + |Rows(posts)|
    ensures r[..4] == StaticPages(base, now)
    ensures r[4..4 + |Rows(categories)|] == CategoryUrls(base, Rows(categories))
    ensures r[4 + |Rows(categories)|..] == PostUrls(base, Rows(posts))
  {
    var s, c, p := StaticPages(base, now), CategoryUrls(base, Rows(categories)), PostUrls(base, Rows(posts));
    assert (s + c + p)[..4] == s;
    assert (s + c + p)[4..4 + |c|] == c;
    assert (s + c + p)[4 + |c|..] == p;
    s + c + p
  }

  /** The two alternates of an entry differ only in the locale segment
      after the base. */
  predicate Localized(base: string, e: Entry)
  {
    && StartsWith(e.my, base + "/my")
    && StartsWith(e.en, base + "/en")
    && e.my[|base| + 3..] == e.en[|base| + 3..]
  }

  lemma PageLocalized(base: string, path: string, lm: Option<string>, f: Frequency, pr: real)
    ensures Localized(base, Page(base, path, lm, f, pr))
    ensures Page(base, path, lm, f, pr).url == Page(base, path, lm, f, pr).my
  {
    var e := Page(base, path, lm, f, pr);
    assert e.my == (base + "/my") + path && e.en == (base + "/en") + path;
    assert e.my[..|base| + 3] == base + "/my";
    assert e.en[..|base| + 3] == base + "/en";
    assert e.my[|base| + 3..] == path && e.en[|base| + 3..] == path;
  }

  /** Every entry of the sitemap has alternates that agree up to the locale,
      and every entry but the home page is its own Burmese alternate. */
  lemma {:induction false} AllLocalized(base: string, now: string, posts: Option<seq<PostRow>>,
                                        categories: Option<seq<CategoryRow>>)
    ensures forall i :: 0 <= i < |Build(base, now, posts, categories)| ==>
              Localized(base, Build(base, now, posts, categories)[i])
    ensures forall i :: 1 <= i < |Build(base, now, posts, categories)| ==>
              Build(base, now, posts, categories)[i].url == Build(base, now, posts, categories)[i].my
  {
    var r := Build(base, now, posts, categories);
    var cs, ps := Rows(categories), Rows(posts);
    forall i | 0 <= i < |r|
      ensures Localized(base, r[i])
      ensures i >= 1 ==> r[i].url == r[i].my
    {
      if i < 4 {
        var paths := ["", "/categories", "/downloads", "/about"];
        var fs := [Daily, Weekly, Weekly, Monthly];
        var prs := [1.0, 0.7, 0.7, 0.5];
        assert r[i] == StaticPages(base, now)[i];
        PageLocalized(base, paths[i], Some(now), fs[i], prs[i]);
        if i == 0 {
          assert r[0] == Page(base, "", Some(now), Daily, 1.0).(url := base);
        }
      } else if i < 4 + |cs| {
        assert r[i] == CategoryUrls(base, cs)[i - 4];
        PageLocalized(base, "/categories/" + cs[i - 4].slug, Some(cs[i - 4].created_at), Weekly, 0.6);
      } else {
        assert r[i] == PostUrls(base, ps)[i - 4 - |cs|];
        var p := ps[i - 4 - |cs|];
        PageLocalized(base, "/posts/" + p.slug, FirstPresent(p.updated_at, p.published_at), Weekly, 0.8);
      }
    }
  }

  /** Failed queries leave just the four fixed pages. */
  lemma NoRowsOnlyStatic(base: string, now: string)
    ensures Build(base, now, None, None) == StaticPages(base, now)
  {
    assert Build(base, now, None, None)[..4] == Build(base, now, None, None);
  }
}
