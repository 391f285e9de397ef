/** The "create tag" form of src/components/admin/TagForm.tsx. Its
    `generateSlug` is the same text as the post form's and is modelled once,
    as `Slug.GenerateSlug`. */
module TagForm {
  import opened Common
  import opened Slug
  import opened Store

  /** The form's `formData` state. */
  datatype Fields = Fields(name_mm: string, name_en: string, slug: string)

  const Empty := Fields("", "", "")

  /** The argument of `createTag`. */
  datatype Input = Input(name_mm: string, name_en: Option<string>, slug: string)

  /** `handleNameChange`: the slug is regenerated only while it is empty or
      still the slug of the previous name. */
  function NameChange(f: Fields, name: string): (g: Fields)
    ensures g.name_mm == name
    ensures (f.slug == "" || f.slug == GenerateSlug(f.name_mm)) ==> g.slug == GenerateSlug(name)
    ensures !(f.slug == "" || f.slug == GenerateSlug(f.name_mm)) ==> g.slug == f.slug
    ensures g.name_en == f.name_en
  {
    f.(name_mm := name, slug := NextSlug(f.slug, f.name_mm, name))
  }

  /** What `handleSubmit` sends: the typed slug or the slug of the name; an
      empty English name is left out. */
  function Payload(f: Fields): (p: Input)
    ensures p.name_mm == f.name_mm
    ensures f.slug != "" ==> p.slug == f.slug
    ensures f.slug == "" ==> p.slug == GenerateSlug(f.name_mm)
    ensures p.name_en == None <==> f.name_en == ""
    ensures p.name_en.Some? ==> p.name_en.value == f.name_en
  {
    Input(f.name_mm, NonEmpty(f.name_en), OrElse(f.slug, GenerateSlug(f.name_mm)))
  }

  /** A slug left to the form is always well formed when it is sent. */
  lemma SubmittedSlugIsSlug(f: Fields)
    requires f.slug == "" || f.slug == GenerateSlug(f.name_mm)
    ensures Payload(f).slug == GenerateSlug(f.name_mm)
    ensures IsSlug(Payload(f).slug)
  {
    FixedPointsAreSlugs(GenerateSlug(f.name_mm));
    GenerateSlugIdempotent(f.name_mm);
  }

  /** The submit button's `disabled`. */
  function SubmitDisabled(loading: bool, f: Fields): (d: bool)
    ensures d <==> loading || f.name_mm == ""
  {
    loading || f.name_mm == ""
  }

  /** The component's state. */
  class Editor {
    var form: Fields
    var loading: bool

    constructor ()
      ensures form == Empty && !loading
    {
      form := Empty;
      loading := false;
    }

    /** `handleSubmit`: create the tag; on success clear the form and
        refresh, on failure keep the form and alert. */
    method Submit(store: ContentStore, newId: string, err: Option<string>) returns (o: Outcome)
      requires store.Valid()
      requires newId !in store.tags
      modifies this, store
      ensures store.Valid()
      ensures !loading
      ensures err.None? ==> form == Empty && o == Refresh
      ensures err.None? ==>
                var p := Payload(old(form));
                store.tags == old(store.tags)[newId := NewTag(newId, p.name_mm, p.name_en, p.slug)]
      ensures err.Some? ==> form == old(form) && o == Alert("Error: " + err.value)
      ensures err.Some? ==> store.tags == old(store.tags)
      ensures store.posts == old(store.posts) && store.categories == old(store.categories)
      ensures store.attachments == old(store.attachments)
      ensures store.postCategories == old(store.postCategories) && store.postTags == old(store.postTags)
    {
      loading := true;
      var p := Payload(form);
      var result := store.CreateTag(p.name_mm, p.name_en, p.slug, newId, err);
      if result.Success? {
        form := Empty;
        o := Refresh;
      } else {
        o := Alert("Error: " + result.error);
      }
      loading := false;
    }
  }
}
