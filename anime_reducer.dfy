/**
 * The list reducer of src/contexts/anime-reducer.ts over the state and
 * actions declared in src/contexts/anime-context-types.ts. The reducer has a
 * single case; for any other action it falls off the end of its `switch` and
 * returns `undefined`, written here as `None`.
 */
module AnimeReducer {
  import opened Wrappers
  import opened AnimeTypes

  datatype AnimeState = AnimeState(loading: bool, error: Option<string>, animes: seq<Anime>)

  datatype AnimeAction =
    | StartLoading
    | SetLoading(loading: bool)
    | SetError(error: Option<string>)
    | SetAnimes(payload: seq<Anime>)

  /** `animeReducer`: `SET_ANIMES` replaces the list and keeps the rest of the state. */
  function AnimeReducer(state: AnimeState, action: AnimeAction): (r: Option<AnimeState>)
    ensures r.Some? <==> action.SetAnimes?
    ensures r.Some? ==> r.value.animes == action.payload
    ensures r.Some? ==> r.value.loading == state.loading && r.value.error == state.error
  {
    match action
    case SetAnimes(payload) => Some(state.(animes := payload))
    case _ => None
  }

  /** Setting the same list twice is setting it once. */
  lemma SetAnimesIdempotent(state: AnimeState, payload: seq<Anime>)
    ensures AnimeReducer(state, SetAnimes(payload)).Some?
    ensures AnimeReducer(AnimeReducer(state, SetAnimes(payload)).value, SetAnimes(payload))
         == AnimeReducer(state, SetAnimes(payload))
  {
  }

  /** The last list set wins. */
  lemma SetAnimesOverrides(state: AnimeState, first: seq<Anime>, second: seq<Anime>)
    ensures AnimeReducer(AnimeReducer(state, SetAnimes(first)).value, SetAnimes(second))
         == AnimeReducer(state, SetAnimes(second))
  {
  }

  /** The declared actions without a case give no state at all. */
  lemma UnhandledActions(state: AnimeState, loading: bool, error: Option<string>)
    ensures AnimeReducer(state, StartLoading).None?
    ensures AnimeReducer(state, SetLoading(loading)).None?
    ensures AnimeReducer(state, SetError(error)).None?
  {
  }
}
