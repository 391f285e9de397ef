/** The markdown toolbar of src/components/admin/MarkdownToolbar.tsx: each
    button wraps the textarea's selection in a fixed pair of markers and
    asks the form to put the result in place of the selection. */
module MarkdownToolbar {
  import opened Common

  /** A toolbar button: its name, the markers put around the selection and
      its tooltip. */
  datatype Tool = Tool(name: string, before: string, after: string, title: string)

  /** The buttons, in toolbar order. */
  const Tools: seq<Tool> := [
    Tool("Bold", "**", "**", "Bold (Ctrl+B)"),
    Tool("Italic", "*", "*", "Italic (Ctrl+I)"),
    Tool("H1", "# ", "", "Heading 1"),
    Tool("H2", "## ", "", "Heading 2"),
    Tool("Bullet List", "- ", "", "Bullet List"),
    Tool("Numbered List", "1. ", "", "Numbered List"),
    Tool("Link", "[", "](url)", "Insert Link"),
    Tool("Quote", "> ", "", "Block Quote"),
    Tool("Code", "`", "`", "Inline Code")
  ]

  /** The part of a textarea the toolbar reads: its text and its selection. */
  datatype TextArea = TextArea(value: string, selectionStart: nat, selectionEnd: nat)

  /** What a click produces: the two arguments passed to `onInsert` and the
      caret position set afterwards. */
  datatype Insertion = Insertion(text: string, second: string, cursor: nat)

  /** `value.substring(start, end)` of the textarea. */
  function Selected(area: TextArea): (s: string)
    ensures area.selectionStart <= area.selectionEnd <= |area.value| ==>
              s == area.value[area.selectionStart..area.selectionEnd]
  {
    Substring(area.value, area.selectionStart, area.selectionEnd)
  }

  /** `handleClick(before, after)`; `None` for the textarea is the case where
      no element has the id, and then nothing happens. */
  function HandleClick(area: Option<TextArea>, before: string, after: string): (r: Option<Insertion>)
    ensures area.None? <==> r.None?
    ensures r.Some? ==> r.value.text == before + Selected(area.value) + after
    ensures r.Some? ==> r.value.second == ""
    ensures r.Some? ==> r.value.cursor == area.value.selectionStart + |before| + |Selected(area.value)|
  {
    match area
    case None => None
    case Some(a) =>
      var sel := Selected(a);
      Some(Insertion(before + sel + after, "", a.selectionStart + |before| + |sel|))
  }

  /** The buttons and their markers: the inline styles wrap on both sides,
      the line prefixes (headings, lists, quote) have nothing after. */
  lemma ToolWrappers()
    ensures |Tools| == 9
    ensures Tools[0].name == "Bold" && Tools[0].before == "**" && Tools[0].after == "**"
    ensures Tools[1].name == "Italic" && Tools[1].before == "*" && Tools[1].after == "*"
    ensures Tools[6].name == "Link" && Tools[6].before == "[" && Tools[6].after == "](url)"
    ensures Tools[8].name == "Code" && Tools[8].before == "`" && Tools[8].after == "`"
    ensures forall i :: 2 <= i <= 5 || i == 7 ==> 0 <= i < |Tools| && Tools[i].after == ""
    ensures forall i, j :: 0 <= i < j < |Tools| ==> Tools[i].name != Tools[j].name
  {
  }
}
