/** Values shared by every part of the autocomplete widget. */
module Types {

  /** An absent or a present value. */
  datatype Option<+T> = None | Some(value: T)

  /** A value the text control holds and `_searchTerm` carries: the control starts as `null`,
      and a missing `data-value` attribute reads as `undefined`. The two are kept apart
      because `distinctUntilChanged` compares them with `===`. */
  datatype Term = Null | Undefined | Str(chars: string)

  /** One suggestion produced by the caller's search function: `{id, text}`, `id` possibly `null`. */
  datatype SearchResult = SearchResult(id: Option<string>, text: string)

  /** One value emitted on `dataSelected`: `{id, text}`; `id` is `null` for free text. */
  datatype Selection = Selection(id: Option<string>, text: Term)
}
