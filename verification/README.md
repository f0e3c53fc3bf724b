# Portfolio site logic, modelled in Dafny

This project models the small amount of decision logic inside a portfolio
website that is otherwise mostly markup, styling and a 3D scene. It covers
five pieces:

- **Repository listing** (`services/github.ts`). Each of two functions
  fetches the user's repositories and keeps one selection of them:
  *deployed* repositories, which have a truthy `homepage`, or *undeployed*
  ones, which do not. Both drop archived and disabled repositories. A
  rejected fetch or a non-ok response throws. The partition lemmas compare
  the two filters on the same listing; the program itself makes a separate
  request for each.
- **README mirror** (`src/components/ui/GithubEmbed.tsx`). A repository URL
  is rewritten to a raw-content URL on the `main` branch. If that request is
  not ok, the first `/main/` is rewritten to `/master/` and one more request
  is made. The component then shows the text, an error panel, a loading view,
  or nothing when there is no URL.
- **Chat transcript** (`components/GeminiAssistant.tsx`). `handleSend`
  ignores blank input. Otherwise it appends the user's message and a loading
  placeholder, and clears the input. When the reply arrives, every
  placeholder is dropped and the reply is appended.
- **Project detail page** (`src/pages/ProjectDetail.tsx`). A project carried
  in the navigation state wins. Otherwise the page takes the first static
  project whose id matches the route. If neither exists it shows a not-found
  view. If a project is found, it dispatches on the project's layout type.
- **Work index preview** (`pages/Work.tsx`). The preview shows the first
  project with the hovered id, or the first project otherwise.

Modules: `Wrappers` (Option, Result), `Seqs` (the `filter`/`find`
semantics of JavaScript arrays, and subsequences), `JsStrings` (`indexOf`,
first-occurrence `replace`, `endsWith`, `trim`, string truthiness),
`GithubService`, `GithubEmbed`, `ChatAssistant`, `ProjectData` (the project
record and the six projects of `constants.ts`), `ProjectDetail` and
`WorkIndex`.

Effects become parameters:

- The network is an oracle `fetch: string -> FetchResponse`. A call is
  either rejected or answered with `ok` and a body text.
- The repository listing is one `ListResponse`.
- The chat reply service is an oracle `respond: string -> string`. It is
  asked about the untrimmed input.

React state is a datatype value, and each handler or effect is a pure
function from the old state to the new one.

Modelling choices:

- A JavaScript `undefined` or `null` is `None`.
- An absent `isLoading` flag is `false`, since both are falsy there.
- Strings are sequences of characters (code points). JavaScript indexes
  strings by UTF-16 code units, so a character outside the Basic
  Multilingual Plane shifts the numeric index by one. The patterns used
  (`github.com`, `/main/`) are ASCII, though, so the same occurrence is
  found and the rewritten string is the same under either counting.

Behaviour of the code worth noting:

- The fallback request is made on any non-ok response, whatever the status.
- The fallback request is not made at all when the first fetch rejects.
- A homepage of `""` counts as "no homepage", because JavaScript treats the
  empty string as falsy.
- The fallback URL replaces the *first* `/main/` of the whole primary URL.
  So a repository URL that already contains `/main/`, or ends in `/main`,
  has the wrong segment rewritten. `GithubEmbed.FallbackUrlShape` states
  exactly when the fallback ends in `/master/README.md`. The `FallbackWith…`
  lemmas give the URL produced in each of the three cases.

## Model

| member | source | states |
|---|---|---|
| GithubService.FetchDeployedProjects | services/github.ts:6-13 | throws exactly when the fetch rejects or the response is not ok (with the fixed message in the second case); an ok response yields the deployed selection of its listing; every returned repository has a non-null, non-empty homepage and is neither archived nor disabled |
| GithubService.FetchUndeployedRepos | services/github.ts:15-22 | throws exactly when the fetch rejects or the response is not ok; an ok response yields the undeployed selection of its listing; every returned repository has a null, absent or empty homepage and is neither archived nor disabled |
| GithubService.SelectionsPreserveOrder | services/github.ts:12-21 | both selections are order-preserving subsequences of the fetched list |
| GithubService.SelectionMembership | services/github.ts:12-21 | a repository is deployed iff it is listed, has a truthy homepage and is live; undeployed iff listed, falsy homepage and live |
| GithubService.SelectionsDisjoint | services/github.ts:12-21 | no repository is in both selections |
| GithubService.InactiveExcluded | services/github.ts:12-21 | an archived or disabled repository is in neither selection |
| GithubService.ActiveInExactlyOne | services/github.ts:12-21 | every listed live repository is in exactly one selection |
| GithubService.SelectionCounts | services/github.ts:12-21 | the two selection sizes add up to the number of live repositories |
| GithubService.SelectionsIdempotent | services/github.ts:12-21 | re-filtering either selection returns it unchanged |
| Seqs.Filter | services/github.ts:12 | `filter` returns no more elements than it was given, and every one it returns satisfies the predicate |
| Seqs.FilterIsSubsequence | services/github.ts:12 | `filter` keeps an order-preserving subsequence of its input |
| Seqs.FilterMembership | services/github.ts:12 | an element survives `filter` iff it is in the input and satisfies the predicate |
| Seqs.FilterPartitionCount | services/github.ts:12-21 | two disjoint predicates covering a third split its selection size between them |
| Seqs.FilterIdempotent | services/github.ts:21 | filtering twice with one predicate is filtering once |
| Seqs.Find | pages/Work.tsx:9 | `find` returns an element at an index satisfying the predicate with no earlier index satisfying it, and nothing exactly when no element satisfies it |
| Seqs.FindFirst | pages/Work.tsx:9 | `find` returns the element at the least index satisfying the predicate |
| JsStrings.IndexOfFrom | src/components/ui/GithubEmbed.tsx:30 | returns the least matching index at or after the start, or none when no index there matches |
| JsStrings.IndexOf | src/components/ui/GithubEmbed.tsx:30 | returns the first occurrence, and none exactly when the pattern does not occur |
| JsStrings.ReplaceFirst | src/components/ui/GithubEmbed.tsx:35 | without an occurrence the string is unchanged; otherwise only the first occurrence is replaced |
| JsStrings.TrimStart | components/GeminiAssistant.tsx:23 | the result is a suffix of the input that does not start with whitespace, and everything removed is whitespace |
| JsStrings.TrimEnd | components/GeminiAssistant.tsx:23 | the result is a prefix of the input that does not end with whitespace, and everything removed is whitespace |
| JsStrings.Trim | components/GeminiAssistant.tsx:23 | `trim()` returns a slice of the input with only whitespace cut from either side, and neither end of the result is whitespace |
| JsStrings.TrimEmptyIff | components/GeminiAssistant.tsx:23 | `trim()` is empty iff every character is JavaScript whitespace |
| GithubEmbed.PrimaryUrl | src/components/ui/GithubEmbed.tsx:29-31 | the primary URL ends with "/main/README.md", and is the URL plus that suffix when it has no "github.com" |
| GithubEmbed.PrimaryUrlRewritesFirstHost | src/components/ui/GithubEmbed.tsx:29-31 | only the first "github.com" is replaced by the raw-content host; the rest of the URL is kept |
| GithubEmbed.FallbackUrl | src/components/ui/GithubEmbed.tsx:35 | a URL without "/main/" is returned unchanged; otherwise the result is two characters longer, the text before the first "/main/" and after it is kept, and "/master/" stands in its place |
| GithubEmbed.StraddlingMainSegment | src/components/ui/GithubEmbed.tsx:35 | a "/main/" across the join of base and suffix starts five characters before the join, under a base ending in "/main" |
| GithubEmbed.FirstMainSegment | src/components/ui/GithubEmbed.tsx:35 | the first "/main/" of the primary URL lies in the base, across the join, or at the suffix, by the three cases |
| GithubEmbed.FallbackWithEarlierMain | src/components/ui/GithubEmbed.tsx:35 | with a "/main/" in the base, the fallback still ends in "/main/README.md", not "/master/README.md" |
| GithubEmbed.FallbackWithTrailingMain | src/components/ui/GithubEmbed.tsx:35 | with a base ending in "/main", the fallback is the base without it, then "/master/main/README.md" |
| GithubEmbed.FallbackWithoutMain | src/components/ui/GithubEmbed.tsx:35 | otherwise the fallback is the base plus "/master/README.md" |
| GithubEmbed.FallbackUrlShape | src/components/ui/GithubEmbed.tsx:29-35 | the fallback ends in "/master/README.md" iff the base has no "/main/" and does not end in "/main" |
| GithubEmbed.LoadReadme | src/components/ui/GithubEmbed.tsx:23-54 | without a truthy URL nothing is requested and the state is kept; otherwise the primary is requested first, the fallback only after a non-ok primary response, loading ends false, error holds iff the last response is not ok, the readme is that response's text on success and is kept on error |
| GithubEmbed.BeginLoad | src/components/ui/GithubEmbed.tsx:27 | starting a run sets the loading flag and leaves the previous text and error flag as they were |
| GithubEmbed.ReloadShowsLoading | src/components/ui/GithubEmbed.tsx:26-27 | once a run for a truthy URL starts, the loading view is shown whatever was shown before |
| GithubEmbed.Render | src/components/ui/GithubEmbed.tsx:56-130 | nothing is rendered iff the URL is falsy; otherwise loading view, error panel linking the URL, or the readme text, by the state |
| GithubEmbed.MirrorOutcome | src/components/ui/GithubEmbed.tsx:26-50 | from the initial state, the mirror shows the primary text if that is ok, else the fallback text if that is ok, else the error panel |
| GithubEmbed.NoUrlNoMirror | src/components/ui/GithubEmbed.tsx:24-56 | an absent or empty URL requests nothing and renders nothing |
| ChatAssistant.InitialTranscript | components/GeminiAssistant.tsx:8-11 | the transcript starts as one settled model message and the input is empty |
| ChatAssistant.BeginSend | components/GeminiAssistant.tsx:22-30 | the send is ignored iff the input is all whitespace; otherwise the prompt is the untrimmed input, the input is cleared, and the transcript gains the user's message and then the model's loading "..." placeholder |
| ChatAssistant.FinishSend | components/GeminiAssistant.tsx:34-37 | no loading message remains, the reply is the last message, the settled earlier messages precede it, and the input is untouched |
| ChatAssistant.HandleSend | components/GeminiAssistant.tsx:22-38 | all-whitespace input leaves the state unchanged; any other send clears the input and leaves the settled earlier messages followed by the user's untrimmed message and the model's reply to that input |
| ChatAssistant.BlankInputIgnored | components/GeminiAssistant.tsx:23 | blank input leaves transcript and input unchanged |
| ChatAssistant.AwaitingEndsWithOnePlaceholder | components/GeminiAssistant.tsx:25-30 | awaiting a reply from rest, exactly one message is loading, and it is the last one |
| ChatAssistant.SendFromRest | components/GeminiAssistant.tsx:22-37 | a send from rest yields the old transcript plus the user's message and the reply, clears the input and returns to rest |
| ChatAssistant.SettledMessagesKept | components/GeminiAssistant.tsx:35 | the settled messages before a send keep their order and content after it |
| ChatAssistant.HiHelloExchange | components/GeminiAssistant.tsx:22-37 | sending "Hi" and receiving "Hello" ends the transcript with those two messages and no placeholder |
| Seqs.PrefixIsSubsequence | components/GeminiAssistant.tsx:35-36 | appending to a sequence keeps the original as a subsequence |
| ProjectData.FindById | src/pages/ProjectDetail.tsx:20 | a found project carries the id and is the first with it; none is found iff no project carries the id |
| ProjectData.FindByIdFirst | src/pages/ProjectDetail.tsx:20 | looking an id up yields the first project carrying it |
| ProjectData.FindOwnId | src/pages/ProjectDetail.tsx:20 | with distinct ids, a project's own id finds that project |
| ProjectData.StaticProjectsWellFormed | constants.ts:3-52 | the static list has six projects, distinct ids and no layout type |
| ProjectDetail.ResolveProject | src/pages/ProjectDetail.tsx:18-21 | a carried project takes precedence; otherwise the result carries the route id and is a static project, and is absent iff no static project has that id |
| ProjectDetail.LayoutFor | src/pages/ProjectDetail.tsx:43-56 | each of immersive, technical, modern and agentic selects its own layout; classic or absent selects the classic layout |
| ProjectDetail.RenderDetail | src/pages/ProjectDetail.tsx:30-58 | the not-found view is shown iff there is no carried project and no matching id; otherwise the layout chosen by the project's type receives the resolved project unchanged |
| ProjectDetail.CarriedProjectWins | src/pages/ProjectDetail.tsx:19 | a carried project is rendered in its own layout whatever the route id |
| ProjectDetail.RouteLookup | src/pages/ProjectDetail.tsx:20 | without a carried project the first static project with the route id is rendered |
| WorkIndex.ActiveProject | pages/Work.tsx:9 | the preview exists iff the list is non-empty and is always an element of it; nothing hovered or an unknown id gives the first project; a hovered id gives the first project with that id |
| WorkIndex.HoverRow | pages/Work.tsx:36-42 | hovering a row sets the hovered id to that row's id, and with distinct ids the preview then shows that row's project |
| WorkIndex.HoverPreviewsRow | pages/Work.tsx:36-42 | with distinct ids, hovering a row previews that row's project |
| WorkIndex.StaticPreview | pages/Work.tsx:7-9 | on the static list the page opens on the first project and hovering any row previews it |

## Left out

- The 3D scene (`components/Experience3D.tsx`): orbit trigonometry, breathing scale and camera smoothing. This is floating-point work driven by a render loop.
- Scroll progress (`App.tsx`): float division over values the browser supplies, plus listener set-up and tear-down. The code does not clamp, so it promises no bound.
- The text-generation call (`services/geminiService.ts`) and its two fixed fallback strings. It wraps a library that is not part of this model, so the reply is an arbitrary string.
- HTTP, JSON decoding and `response.text()`: they are oracle inputs. A rejection of `response.text()` is not modelled separately; it would end in the error state like a failed fallback.
- Markdown rendering, styling, and the `stats` header of the mirror.
- The random metrics and timers of `src/components/layouts/AgenticLayout.tsx`.
- Overlapping chat sends. Interleaved React state updaters are a concurrency concern, so one send at a time is modelled. `FinishSend` still accepts any transcript.
- Side effects: `window.scrollTo`, `scrollIntoView`, `setActiveProject`, `console.error`, and the open/close toggle of the chat widget.
- The `catch` in `pages/Archive.tsx` that shows an empty list. It sits outside the listing functions.
- Pure markup files: the home, philosophy and archive pages, the project list, grid, navigation bar and the repository card of `components/ui/GithubEmbed.tsx`.
- GithubEmbed.LoadReadme: one run is modelled as settling before the next starts. The effect has no cleanup or abort, so a late response for an earlier URL can overwrite the state set for a later URL; that interleaving is not modelled. The start of a run (`isLoading := true`) is modelled separately by `BeginLoad`.
- ProjectDetail.ResolveProject: the detail page reads its list from `src/data/projects`, which is not part of this model, so `ResolveProject` and `RenderDetail` take the static list as a parameter. `ProjectData.Projects` is the `constants.ts` list that the work index reads.
- JavaScript strings may hold lone surrogate code units, which a Dafny `char` cannot represent; such strings are not modelled.
