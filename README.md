# A verified model of the blog's admin core

The system is a bilingual (Burmese `my` / English `en`) blog with an admin
area. It is built with Next.js on a hosted Postgres database. This project
models the parts of it that hold logic:

- the slug generator, and the rule that keeps a slug in step with a title or name;
- the post editor: the publish-time rule on save, syncing a post's
  categories, the category picker, and the text splice behind the markdown toolbar;
- the category and tag creation forms;
- the server actions that write the content tables (`src/lib/actions.ts`);
- the publish/unpublish toggle, which with those actions forms a post's status machine;
- the admin route guard;
- the markdown toolbar;
- the attachment list editor;
- the sitemap builder;
- the pagination control, including `URLSearchParams.set`.

Every core file becomes one module. `Common` holds the result type that
every action returns, optional values, and the JavaScript string operations
whose edge cases matter: `substring` clamps, and `||` treats the empty string
as false.

The database is the class `Store.ContentStore`. Its fields are the six tables:
`posts`, `categories`, `tags` and `attachments` are maps keyed by id, and the
two join tables are sets of pairs. Its invariant `Valid` says two things:

- every row is stored under its own id;
- no attachment or join row refers to a missing row.

Every method preserves `Valid`. The database's answers are method inputs:

- an optional storage error `err`;
- the id it assigns on insert;
- the current time `now`.

Each action either applies its one write and returns `Success`, or returns
`Failure(err)` with the tables untouched.

The schema's foreign keys are part of the model. A delete cascades:

- deleting a post removes its attachments and its join rows, which the
  comment at `src/lib/actions.ts:11` relies on;
- deleting a category or tag removes only its join rows.

An insert fails if it would point at a missing row or repeat a join pair.

The admin components are modelled by how their state changes. Form state is
a datatype, and a class holds what an event handler updates: `formData`,
`loading`, and the attachment list. A handler that talks to the database takes
the store as a parameter. Its `ensures` states the new component state and the
new contents of the tables. The alert or refresh it triggers is an `Outcome`
value.

`generateSlug` appears three times with identical code:

- `src/components/admin/PostForm.tsx:38-46`;
- `src/components/admin/CategoryForm.tsx:9-18`;
- `src/components/admin/TagForm.tsx:8-16`.

It is modelled once, as `Slug.GenerateSlug`, and all three forms use that
one function. Being one function, it agrees with itself on every input, so the
three copies need no equivalence proof.

The two places that set a post's publish time differ:

- the post form stamps it only when it is empty
  (`src/components/admin/PostForm.tsx:106-108`);
- `publishPost` overwrites it on every call (`src/lib/actions.ts:32`).

The model follows each. `PostForm.SaveKeepsPublishTime`
and `PublishButton.ToggleLanding` state the two behaviours side by side.

## Model

| member | source | states |
|---|---|---|
| Common.OrElse | src/components/admin/CategoryForm.tsx:48 | `a \|\| b` on strings: the left operand unless it is the empty string |
| Common.NonEmpty | src/components/admin/CategoryForm.tsx:47-49 | `s \|\| undefined`: absent exactly when the string is empty, else the string itself |
| Common.NonEmptyOpt | src/lib/actions.ts:80-82 | `x \|\| null` on an optional string: null exactly when absent or empty, else unchanged |
| Common.Substring | src/components/admin/MarkdownToolbar.tsx:34 | JavaScript `substring(a, b)`: the slice `s[a..b)` when the indices are in order and in range, never longer than `s` |
| Common.SubstringFrom | src/components/admin/PostForm.tsx:253 | `substring(a)`: the suffix from `a`, or empty past the end |
| Slug.Trim | src/components/admin/PostForm.tsx:41 | `trim()`: the result is the slice of the input that starts after the leading white space, begins and ends with a non-space character, and keeps every non-space character |
| Slug.DropDisallowed | src/components/admin/PostForm.tsx:42 | the first `replace`: only characters of `[\w\s\u1000-\u109F-]` remain, each taken from the input |
| Slug.DropDisallowedFilter | src/components/admin/PostForm.tsx:42 | each character stays, in its place, exactly when it is in `[\w\s\u1000-\u109F-]` |
| Slug.DropDisallowedAppend | src/components/admin/PostForm.tsx:42 | the replace works on each part of a concatenation separately, so the order is kept |
| Slug.DropKeepsAllowed | src/components/admin/PostForm.tsx:42 | a string of allowed characters only is unchanged |
| Slug.SeparatorsToHyphen | src/components/admin/PostForm.tsx:43 | the second `replace`: no white space or `_` remains; every character is from the input or a hyphen |
| Slug.SeparatorRunIsOneHyphen | src/components/admin/PostForm.tsx:43 | a whole run of white space and `_` becomes exactly one hyphen |
| Slug.SeparatorsKeepWord | src/components/admin/PostForm.tsx:43 | a stretch without white space or `_` is copied as it is, so an input without any is unchanged |
| Slug.CollapseHyphens | src/components/admin/PostForm.tsx:44 | the third `replace`: no two hyphens in a row remain, and every character comes from the input |
| Slug.HyphenRunIsOneHyphen | src/components/admin/PostForm.tsx:44 | a whole run of hyphens becomes exactly one hyphen |
| Slug.CollapseKeepsWord | src/components/admin/PostForm.tsx:44 | a stretch without hyphens is copied as it is |
| Slug.CollapseKeepsSingleHyphens | src/components/admin/PostForm.tsx:44 | a string without two hyphens in a row is unchanged |
| Slug.GenerateSlug | src/components/admin/PostForm.tsx:38-46 | the output has only `a-z`, `0-9`, U+1000–U+109F and `-`; it never has two hyphens in a row and never starts or ends with one |
| Slug.FixedPointsAreSlugs | src/components/admin/PostForm.tsx:38-46 | `generateSlug(s) == s` exactly when `s` is already a well-formed slug |
| Slug.GenerateSlugIdempotent | src/components/admin/PostForm.tsx:38-46 | `generateSlug(generateSlug(x)) == generateSlug(x)` |
| Slug.StepsFixSlug | src/components/admin/PostForm.tsx:40-45 | each step of the chain leaves a well-formed slug unchanged |
| Slug.NothingMeaningfulGivesEmpty | src/components/admin/PostForm.tsx:42-45 | text with no letter, digit or Myanmar character (all punctuation, spaces, hyphens) gives `""` |
| Slug.MeaningfulGivesNonEmpty | src/components/admin/PostForm.tsx:42-45 | text with at least one letter, digit or Myanmar character gives a non-empty slug |
| Slug.GenerateSlugKeepsMeaningful | src/components/admin/PostForm.tsx:38-46 | the letters, digits and Myanmar characters of the slug are exactly those of the lower-cased text, in order |
| Slug.NextSlug | src/components/admin/PostForm.tsx:89-91 | the slug after a name change: the new name's slug if the old slug was empty or the old name's slug, otherwise the old slug |
| Slug.AutoSlugFollowsName | src/components/admin/PostForm.tsx:85-93 | a slug that starts in sync with the name is, after any series of edits, the slug of the last name |
| Slug.EditedSlugIsKept | src/components/admin/PostForm.tsx:85-93 | a slug the user edited stays as it is through later name edits, unless one of the new names generates exactly that slug |
| PostForm.TitleChange | src/components/admin/PostForm.tsx:85-93 | `title_mm` is set; the slug becomes the new title's slug iff it was empty or the old title's slug, and is kept otherwise; no other field changes |
| PostForm.TitleChangeKeepsSync | src/components/admin/PostForm.tsx:85-93 | once the slug is auto-derived it stays equal to the slug of the current title, and is well formed |
| PostForm.PublishedAtOnSave | src/components/admin/PostForm.tsx:106-108 | now if the status is `published` and no publish time is set; otherwise the form's value, with an empty one sent as null |
| PostForm.SaveKeepsPublishTime | src/components/admin/PostForm.tsx:106-108 | saving an already published post again keeps its first publish time |
| PostForm.OnlyPublishingStamps | src/components/admin/PostForm.tsx:106-108 | a post saved without a publish time gets one iff its status is `published` |
| PostForm.PostDataOf | src/components/admin/PostForm.tsx:103-110 | the saved row carries every form field, the publish time of the rule above, and `updated_at` = now |
| PostForm.Submit | src/components/admin/PostForm.tsx:95-145 | on a failed upsert: alert, with posts and links unchanged. On success: the row is written under its id; other posts' links are untouched; the post's links are exactly the selected ids (none for an empty selection) when the batch insert is accepted, and none otherwise; then go to the posts list |
| PostForm.SelectionInserts | src/components/admin/PostForm.tsx:130-136 | a selection of existing categories without repeats is always accepted by the batch insert |
| PostForm.Remove | src/components/admin/PostForm.tsx:150 | `filter(id => id !== x)`: `x` is gone, every other id's membership is kept, and a list without `x` is unchanged |
| PostForm.RemoveAppend | src/components/admin/PostForm.tsx:150 | the filter distributes over concatenation, so it keeps the order of the ids it keeps |
| PostForm.RemoveKeepsDistinct | src/components/admin/PostForm.tsx:150 | filtering a list without repeats leaves a list without repeats |
| PostForm.ToggleCategory | src/components/admin/PostForm.tsx:147-153 | the id's membership flips and every other id's membership is kept; an absent id is appended at the end; no repeat is introduced |
| PostForm.ToggleKeepsOrder | src/components/admin/PostForm.tsx:147-153 | apart from the toggled id, the list after a toggle is the list before, in the same order |
| PostForm.ToggleTwice | src/components/admin/PostForm.tsx:147-153 | toggling twice restores membership; the list itself when the id was absent, the id moved to the end when it was present |
| PostForm.Splice | src/components/admin/PostForm.tsx:248-256 | `onInsert`: the selection of the textarea is replaced by the text; without a textarea the content is unchanged |
| PostForm.ToolbarWrapsSelection | src/components/admin/PostForm.tsx:251-254 | a toolbar click then the splice gives `content[..start) + before + selected + after + content[end..]`, with the caret after the selection and just before `after` |
| MarkdownToolbar.Selected | src/components/admin/MarkdownToolbar.tsx:32-34 | the selected text is `value[start..end)` for an in-range selection |
| MarkdownToolbar.HandleClick | src/components/admin/MarkdownToolbar.tsx:28-44 | no textarea, no insertion; otherwise the text passed on is `before + selected + after`, the second argument is `""` and the caret is `start + \|before\| + \|selected\|` |
| MarkdownToolbar.ToolWrappers | src/components/admin/MarkdownToolbar.tsx:16-26 | nine tools with distinct names; Bold `**`/`**`, Italic `*`/`*`, Link `[`/`](url)`, Code `` ` ``/`` ` ``; headings, lists and quote have an empty `after` |
| CategoryForm.NameChange | src/components/admin/CategoryForm.tsx:30-39 | the slug is regenerated iff it is empty or the old name's slug, else kept; the other fields do not change |
| CategoryForm.Payload | src/components/admin/CategoryForm.tsx:45-50 | the sent slug is the typed one, or the name's slug when none was typed; an empty English name or description is sent as absent |
| CategoryForm.SubmittedSlugIsSlug | src/components/admin/CategoryForm.tsx:45-50 | a slug left to the form is sent as the name's slug, which is well formed |
| CategoryForm.SubmitDisabled | src/components/admin/CategoryForm.tsx:112 | the button is disabled iff loading or the Burmese name is empty |
| CategoryForm.Editor.Submit | src/components/admin/CategoryForm.tsx:41-60 | on success: the category is inserted, the form is cleared, and the page refreshes. On failure: the form and tables are unchanged and the error is alerted. `loading` ends false either way |
| TagForm.NameChange | src/components/admin/TagForm.tsx:27-35 | the slug is regenerated iff it is empty or the old name's slug, else kept |
| TagForm.Payload | src/components/admin/TagForm.tsx:41-45 | the typed slug or the name's slug; an empty English name sent as absent |
| TagForm.SubmittedSlugIsSlug | src/components/admin/TagForm.tsx:41-45 | a slug left to the form is sent well formed |
| TagForm.SubmitDisabled | src/components/admin/TagForm.tsx:95 | disabled iff loading or the Burmese name is empty |
| TagForm.Editor.Submit | src/components/admin/TagForm.tsx:37-55 | the tag is inserted and the form cleared only on success; a failure leaves form and tables as they were and alerts; `loading` ends false |
| Store.Publish | src/lib/actions.ts:30-34 | status `published`, `published_at` and `updated_at` both now (overwriting), every other column unchanged |
| Store.Unpublish | src/lib/actions.ts:51-54 | status `draft`, `updated_at` now, `published_at` and every other column unchanged |
| Store.PublishUnpublishKeepsContent | src/lib/actions.ts:25-64 | unpublishing keeps the publish time a publish set; publishing after an unpublish is the same as publishing directly |
| Store.ApplyPatch | src/lib/actions.ts:96-110 | each field supplied in the patch is replaced, every other field is kept |
| Store.NewCategory | src/lib/actions.ts:76-85 | the inserted row has the given values, with an empty or absent English name and description stored as null |
| Store.NewTag | src/lib/actions.ts:147-155 | the inserted row has the given values, with an empty or absent English name stored as null |
| Store.LinksNotOf | src/lib/actions.ts:11 | the join rows of every post except the one named |
| Store.LinksNotTo | src/lib/actions.ts:121-136 | the join rows that do not name the deleted category or tag |
| Store.LinksFor | src/components/admin/PostForm.tsx:131-134 | one join row per selected id for the post, and no others |
| Store.LinkedTo | src/components/admin/PostForm.tsx:122-136 | the ids a post is linked to |
| Store.AttachmentsNotOf | src/lib/actions.ts:11 | the attachments of every post except the one named, unchanged |
| Store.LinkInsertResult | src/lib/actions.ts:205-213 | an insert of a join row succeeds iff there is no storage error, both rows exist and the pair is new; a storage error is returned as is |
| Store.ContentStore.DeletePost | src/lib/actions.ts:8-23 | failure: nothing changes. Success: only that post is removed, together with its attachments and its category and tag links; categories and tags untouched |
| Store.ContentStore.PublishPost | src/lib/actions.ts:25-44 | on success only the row with that id is published; a missing id changes nothing and is not an error; failure changes nothing |
| Store.ContentStore.UnpublishPost | src/lib/actions.ts:46-64 | on success only the row with that id is unpublished; failure changes nothing |
| Store.ContentStore.UpsertPost | src/components/admin/PostForm.tsx:113-120 | the row is written under its own id or a fresh one and returned; failure changes nothing |
| Store.ContentStore.DeleteCategoryLinksOf | src/components/admin/PostForm.tsx:124-127 | every category link of the post is removed, and only those |
| Store.ContentStore.InsertCategoryLinks | src/components/admin/PostForm.tsx:130-136 | the batch insert adds all the rows or none: all when the post and every category exist, the ids are distinct and no pair exists yet |
| Store.ContentStore.CreateCategory | src/lib/actions.ts:68-94 | on success the new row is inserted under the fresh id and returned; failure changes nothing |
| Store.ContentStore.UpdateCategory | src/lib/actions.ts:96-119 | on success only the matching row changes, by the patch; failure changes nothing |
| Store.ContentStore.DeleteCategory | src/lib/actions.ts:121-136 | on success the category goes and posts are only detached from it; failure changes nothing |
| Store.ContentStore.CreateTag | src/lib/actions.ts:140-163 | on success the new row is inserted under the fresh id and returned; failure changes nothing |
| Store.ContentStore.DeleteTag | src/lib/actions.ts:165-179 | on success the tag and its links go; failure changes nothing |
| Store.ContentStore.InsertAttachment | src/components/admin/AttachmentManager.tsx:30-37 | the row is inserted with the fresh id and returned, unless it names a missing post or the write fails |
| Store.ContentStore.DeleteAttachment | src/lib/actions.ts:183-198 | on success exactly that attachment is removed; failure changes nothing |
| Store.ContentStore.AddPostCategory | src/lib/actions.ts:202-215 | on success exactly the pair is added; every other join row is unchanged |
| Store.ContentStore.RemovePostCategory | src/lib/actions.ts:217-232 | on success exactly the pair is removed; every other join row is unchanged |
| Store.ContentStore.AddPostTag | src/lib/actions.ts:236-249 | on success exactly the pair is added; every other join row is unchanged |
| Store.ContentStore.RemovePostTag | src/lib/actions.ts:251-266 | on success exactly the pair is removed; every other join row is unchanged |
| PublishButton.Dispatch | src/components/admin/PublishButton.tsx:20-22 | `published` dispatches unpublish; `draft` and `scheduled` dispatch publish |
| PublishButton.Apply | src/components/admin/PublishButton.tsx:20-22 | the dispatched action's row update |
| PublishButton.ToggleLanding | src/components/admin/PublishButton.tsx:20-22 | a toggle from `published` lands on `draft` keeping the publish time; from anything else it lands on `published` stamped now |
| PublishButton.ToggleTwiceFlips | src/components/admin/PublishButton.tsx:20-22 | from `draft` or `published`, a toggle changes the status and a second toggle restores it |
| PublishButton.Button.Toggle | src/components/admin/PublishButton.tsx:17-31 | refresh on success, the error alerted and no write on failure; only the post's row changes, by the dispatched action; `loading` ends false |
| Middleware.LocaleOf | src/middleware.ts:44 | `en` iff the path starts with `/en`, else `my` |
| Middleware.Route | src/middleware.ts:36-56 | redirect to `/{locale}/admin/login` iff an admin non-login path without a user; to `/{locale}/admin/dashboard` iff the login page with a user; pass through otherwise |
| Middleware.LoginIsAdmin | src/middleware.ts:39-40 | every login path is an admin path |
| Middleware.PrefixNotSegment | src/middleware.ts:39 | the test is a plain prefix test: `/my/adminx` is an admin path and is redirected without a user |
| Middleware.AdminLocale | src/middleware.ts:39-44 | on an admin path the locale is the path's first segment |
| Middleware.Targets | src/middleware.ts:45-52 | the login target is a login page and the dashboard an admin non-login page, both in the given locale |
| Middleware.NoRedirectLoop | src/middleware.ts:43-56 | the target of a redirect passes through under the same sign-in state and has the same locale, so at most one redirect happens |
| AttachmentManager.NewRow | src/components/admin/AttachmentManager.tsx:30-37 | the inserted row has the post's id, `title_en` = `title_mm` and size `Unknown` |
| AttachmentManager.RemoveId | src/components/admin/AttachmentManager.tsx:51-52 | every entry with the id is removed and every other entry is kept |
| AttachmentManager.RemoveIdAppend | src/components/admin/AttachmentManager.tsx:51-52 | the filter distributes over concatenation, so the kept entries stay in order |
| AttachmentManager.RemoveIdAfterAdd | src/components/admin/AttachmentManager.tsx:42-52 | deleting an id after adding an entry with another id keeps that entry at the end |
| AttachmentManager.Manager.Add | src/components/admin/AttachmentManager.tsx:24-46 | on success the returned row is appended after the existing ones (also in the table) and the form resets to `{"", "apk", ""}`; on failure the message is alerted and list, form and table are unchanged; `loading` ends false |
| AttachmentManager.Manager.Delete | src/components/admin/AttachmentManager.tsx:48-54 | a confirmed successful delete removes the id from the table and every entry with that id from the list; a declined confirm or a failed delete changes nothing |
| Sitemap.BaseUrl | src/app/sitemap.ts:6 | the configured site URL, or the default when it is unset or empty |
| Sitemap.FirstPresent | src/app/sitemap.ts:21 | `updated_at \|\| published_at` on nullable time stamps |
| Sitemap.PostEntry | src/app/sitemap.ts:19-30 | URL `base/my/posts/slug`, English alternate `base/en/posts/slug`, last modified `updated_at` else `published_at`, weekly, 0.8 |
| Sitemap.CategoryEntry | src/app/sitemap.ts:32-43 | URL `base/my/categories/slug`, English alternate under `/en`, last modified `created_at`, weekly, 0.6 |
| Sitemap.Rows | src/app/sitemap.ts:19 | a null query result gives no rows |
| Sitemap.PostUrls | src/app/sitemap.ts:19-30 | one entry per post row, in row order |
| Sitemap.CategoryUrls | src/app/sitemap.ts:32-43 | one entry per category row, in row order |
| Sitemap.StaticPages | src/app/sitemap.ts:45-94 | exactly the home page (URL the bare base, daily, 1), `/my/categories` and `/my/downloads` (weekly, 0.7) and `/my/about` (monthly, 0.5), in that order |
| Sitemap.Build | src/app/sitemap.ts:96 | the static pages, then the category entries, then the post entries; length `4 + categories + posts` |
| Sitemap.PageLocalized | src/app/sitemap.ts:24-28 | a page's alternates are the same path under `/my` and `/en`, and its URL is the `/my` one |
| Sitemap.AllLocalized | src/app/sitemap.ts:19-96 | every entry's alternates differ only in the locale segment; every entry but the home page is its own Burmese alternate |
| Sitemap.NoRowsOnlyStatic | src/app/sitemap.ts:19-43 | with both queries failed the sitemap is the four static pages |
| Pagination.PageList | src/components/admin/PaginationControls.tsx:37 | `Array.from({length: n}, (_, i) => i + 1)`: length `n` (0 when negative), element `i` is `i + 1` |
| Pagination.PageListIsRange | src/components/admin/PaginationControls.tsx:37 | the pages are exactly `1..n`, strictly ascending |
| Pagination.Render | src/components/admin/PaginationControls.tsx:24-58 | nothing iff `totalPages <= 1`; prev goes to `current - 1`, disabled iff no previous page; next goes to `current + 1`, disabled iff no next page; buttons `1..totalPages`, highlighted iff equal to the current page |
| Pagination.OneHighlighted | src/components/admin/PaginationControls.tsx:41 | exactly one button is highlighted when the current page is in range, none otherwise |
| Pagination.FirstIndex | src/components/admin/PaginationControls.tsx:20 | the position of the first pair with the name, with no earlier one, or none at all |
| Pagination.Others | src/components/admin/PaginationControls.tsx:20 | the pairs left with other names; a list without the name is returned unchanged |
| Pagination.OthersFilter | src/components/admin/PaginationControls.tsx:20 | each pair stays, in its place, exactly when it has another name |
| Pagination.OthersMembers | src/components/admin/PaginationControls.tsx:20 | a pair is kept exactly when it is in the list and has another name |
| Pagination.OthersAppend | src/components/admin/PaginationControls.tsx:20 | selecting the other pairs distributes over concatenation, so keeps their order |
| Pagination.Get | src/components/admin/PaginationControls.tsx:20 | the value of the first pair with the name |
| Pagination.SetReplaces | src/components/admin/PaginationControls.tsx:19-20 | after `set`, the name has exactly one pair and reads back the value; the other pairs are the old ones, in order |
| Pagination.SetIdempotent | src/components/admin/PaginationControls.tsx:19-20 | setting the same value twice is setting it once |
| Pagination.SearchParams.Set | src/components/admin/PaginationControls.tsx:20 | the object's pairs become exactly `set` as the URL standard defines it |
| Pagination.FindName | src/components/admin/PaginationControls.tsx:20 | the scan stops at the first pair with the name, or at the end when there is none |
| Pagination.DropName | src/components/admin/PaginationControls.tsx:20 | the pass over the later pairs keeps exactly those with other names, in order |
| Pagination.Digits | src/components/admin/PaginationControls.tsx:20 | `toString()` of a non-negative number: decimal digits, one digit exactly below ten, and no leading zero |
| Pagination.DigitsRoundTrip | src/components/admin/PaginationControls.tsx:20 | reading the digits back gives the number |
| Pagination.HandlePageChange | src/components/admin/PaginationControls.tsx:18-22 | the router goes to the same path with the current query and `page` set to the number |
| Pagination.PageChangeKeepsOthers | src/components/admin/PaginationControls.tsx:18-22 | the new query names the page once, reads back as that page, and keeps every other parameter in order |

## Left out

- Database access, authentication and revalidation are not modelled. This covers the Supabase client, `getUser`, the cookie copying in `src/middleware.ts:18-27`, `revalidatePath`, and router push and refresh. These are foreign I/O. Their results, such as the storage error, the assigned id and the signed-in flag, are inputs, and navigation is an `Outcome` value.
- Slug uniqueness on posts, categories and tags is not modelled as a constraint. A duplicate slug surfaces as the storage error `err`, which every write already takes.
- Slug.Lower folds only `A`-`Z`. JavaScript's `toLowerCase` also folds other letters. For almost all of them both results are then dropped by the ASCII-only `\w` filter. A few map into kept characters (U+212A KELVIN SIGN lowers to `k`; U+0130 lowers to `i` plus a combining dot), and for those the slug differs.
- The current time is one `now` per call. The source calls `new Date()` separately for `published_at` and `updated_at` (`src/lib/actions.ts:32-33`, `src/components/admin/PostForm.tsx:107,109`), and the two calls can differ by a millisecond. Time stamps are opaque strings.
- PostForm.Submit: the delete and insert on the join table are sequential steps whose errors the source ignores. Failures between the steps and concurrent writers are not modelled. The batch insert is all-or-nothing, so the post's links equal the selection only when the insert is accepted (see `PostForm.SelectionInserts`); otherwise the post has no links.
- The initial form values taken from `initialData` (`src/components/admin/PostForm.tsx:54-70`) are not modelled; neither is the fetch of the category list.
- Loading flags: no state is observable while an action is running. The category, tag, attachment and publish handlers state only that `loading` is false when they finish, whatever the result.
- PostForm.Submit: the post form's `loading` flag (`src/components/admin/PostForm.tsx:97,143`) is not modelled, because its form state is a value passed in, not an object.
- Cursor offsets (`selectionStart`, `substring`, `start + before.length` in `MarkdownToolbar.HandleClick` and `PostForm.Splice`) count UTF-16 code units in the source and Unicode scalar values here. The two agree on Myanmar and all other Basic Multilingual Plane text, and differ on characters outside it, such as emoji.
- Focus and caret behaviour (`focus`, `setSelectionRange`, `setTimeout`) is not modelled. The caret position is returned as a number.
- The toolbar's image upload (`src/components/admin/MarkdownToolbar.tsx:46-73`) depends on random file names and object storage.
- Middleware.Route returns the redirect's path. The absolute URL built against `request.url`, the internationalisation middleware's own response, and the `matcher` configuration are not modelled.
- Pagination.HandlePageChange returns the path and the parameter list. The percent-encoding of `params.toString()` is not modelled.
- Pagination.IntToString has no contract. The page numbers the component produces are integers, and `Digits` states the non-negative case. Non-integer numbers and their `toString` are not modelled.
- Sitemap: the fixed pages' `new Date()` is the input `now`. A post whose two time stamps are both null gets a null `lastModified`.
- Presentation is not modelled: the other components, every render path that only switches class names, and the inline edit forms of categories and tags.

