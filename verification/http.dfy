/** What a view hands back: the store after the request, the page the
    browser is sent to, and the flash messages queued for it. */
module Http {
  import opened Models
  import opened Fields

  datatype Level = Info | Success | Warning | Error

  datatype Message = Message(level: Level, text: string)

  /** The URL names the views redirect to. */
  datatype Route =
    | TagListRoute
    | TagCreateRoute
    | NoteListRoute
    | NoteDetailRoute(noteId: int)
    | NoteSetDeadlineRoute(noteId: int)
    | ProfileRoute

  /** The templates the views render, with the context that matters here. */
  datatype Template =
    | TagListPage(tags: set<int>)
    | TagCreatePage(nameErrors: set<FieldError>)
    | NoteListPage(noteIds: seq<int>)
    | NoteDetailPage(noteId: int)
    | NoteFormPage(isEdit: bool)
    | SetDeadlinePage(noteId: int)

  /** `NotFound` is the 404 that `get_object_or_404` raises. */
  datatype Page = Redirect(to: Route) | Render(template: Template) | NotFound

  datatype Reply = Reply(store: Store, page: Page, messages: seq<Message>)
}
