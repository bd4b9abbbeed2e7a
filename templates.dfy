/** The template lookup in front of every page (renderTemplate, main.go:39-50):
    a page is rendered only when its name is one that init registered;
    otherwise the response is a 500 with "The template does not exist.". */
module Templates {

  /** The names init registers (main.go:34-36). */
  const Registered: set<string> := {"index", "add", "edit"}

  /** The page rendered with the given layout, or the missing-template error. */
  datatype Render = Executed(name: string, layout: string) | TemplateMissing

  /** The name lookup of renderTemplate (main.go:40-44); executing the template is not modelled. */
  function RenderTemplate(templates: set<string>, name: string, layout: string): (r: Render)
    ensures r.TemplateMissing? <==> name !in templates
    ensures r.Executed? ==> r.name == name && r.layout == layout
  {
    if name in templates then Executed(name, layout) else TemplateMissing
  }

  /** getNotes as written (main.go:53): it asks for "Index", a name init never
      registers, so the list page fails on every request, whatever the store holds. */
  function ListPageAsWritten(): (r: Render)
    ensures r == TemplateMissing
  {
    assert "Index"[0] != "index"[0];
    RenderTemplate(Registered, "Index", "base")
  }

  /** getNotes with the name init registers: the list page is found. */
  function ListPage(): (r: Render)
    ensures r == Executed("index", "base")
  {
    RenderTemplate(Registered, "index", "base")
  }

  /** The add handler (main.go:57) asks for a name init registers. */
  lemma AddPageFound()
    ensures RenderTemplate(Registered, "add", "base") == Executed("add", "base")
  {
  }

  /** The edit handler (main.go:84) asks for a name init registers. */
  lemma EditPageFound()
    ensures RenderTemplate(Registered, "edit", "base") == Executed("edit", "base")
  {
  }
}
