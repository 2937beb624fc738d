# Knowledge-graph explorer: store and view arithmetic, in Dafny

This project models the client-side core of a browser-based "infinite knowledge graph" explorer. The user clicks a topic card, the store asks a text generator for the card's sub-topics, and the graph view draws each level of the active path as a new row of cards. A chat log lets the user ask about a node.

The model covers four source files:

- `src/lib/store.ts`, the single global store. It holds the node map, the active path, the in-flight set and the loading flag, plus the chat log and its flags. It is modelled as the class `Store.GraphStore`, whose methods update its fields. The pure parts are separate modules of functions with lemmas:
  - `Seed`: the initial node map built from the seed taxonomy, and the row-0 root cards.
  - `GraphOps`: resolving a node's children, the new path after a click, child ids, and installing generated children.
  - `ChatLog`: the prompt text, the reply message and the fixed texts.
  - `Decimal`: decimal rendering of the child index inside a child id, and its inverse.
- `src/components/HoverCard.tsx`: the popup's clamping arithmetic over reals (`HoverCard`).
- `src/components/GraphView.tsx`: row building as a loop method, the per-card flags, and the click handler (`GraphView`).
- `src/components/chat/ChatList.tsx`: the conversation list and its previews (`ChatList`).

Each asynchronous store action is split where it awaits the network:

- A begin step does everything up to sending the request and returns the request.
- A complete step takes the outcome as a parameter: success with its data, or failure.

Any interleaving of these steps is a sequence of method calls. The in-flight guard and "failure changes nothing" then become postconditions of these steps and are proved there.

What the code does, and what the model therefore states:

- A successful generation **replaces** the parent's `childrenIds` with `[p_0, …, p_{n-1}]`. It does not append a new page. store.ts has no children pages and no pagination cursor.
- The success path sets `isLoading` to false even for a silent generation. A failure clears it only when the generation was not silent.
- The request that `triggerChat` sends carries the chat history as it was before the user prompt was appended.

## Model

| member | source | states |
|---|---|---|
| `Seed.InitializeNodes` | src/lib/store.ts:36-58 | the loop over roots and seed children builds exactly the seed map: children first with empty child lists, then the normalised root |
| `Seed.SeedMapKeys` | src/lib/store.ts:36-58 | the initial map's keys are exactly the root ids and their seed children's ids |
| `Seed.SeedMapKeysMatchIds` | src/lib/store.ts:41-55 | in the initial map every node is stored under its own id |
| `Seed.SeedRootEntry` | src/lib/store.ts:38-55 | a root whose id no later root or seed child reuses is stored normalised, and its `childrenIds` are its seed children's ids in order |
| `Seed.RootNodes` | src/lib/store.ts:236-244 | one static root card per taxonomy root, in order, with the root's id, title, hook and popup data, no generator instructions and no child list |
| `Seed.RootCardsAreSeeded` | src/lib/store.ts:236-243 | every row-0 card's id is a key of the initial node map |
| `Decimal.ParseNatToString` | src/lib/store.ts:134 | parsing the decimal text of an index gives the index back |
| `Decimal.NatToStringInjective` | src/lib/store.ts:134 | distinct indices render to distinct decimal texts |
| `GraphOps.Resolve` | src/lib/store.ts:176 | resolving ids yields at most one node per id; a node is in the result iff some id maps to it |
| `GraphOps.NodeChildren` | src/lib/store.ts:172-177 | empty for a missing node or a missing child list; otherwise at most one node per child id, each the entry of one of the node's child ids |
| `GraphOps.ResolveAppend` | src/lib/store.ts:176 | resolution keeps id order: resolving a concatenation concatenates the results |
| `GraphOps.ResolveAllPresent` | src/lib/store.ts:176 | with no dangling id, the result has one node per id, position by position |
| `GraphOps.SelectedPathShape` | src/lib/store.ts:90-94 | the new path is the first `min(depth, |path|)` old entries followed by the clicked id |
| `GraphOps.PathTitles` | src/lib/store.ts:116-119 | the request's path history has one entry per path id: its title, or nothing for an unknown id |
| `GraphOps.ChildId` | src/lib/store.ts:134 | a child id is the parent id, then an underscore, then more text |
| `GraphOps.ChildIdSuffix` | src/lib/store.ts:134 | the text after the parent id and underscore is all digits and parses back to the child's index `i`, so the ids are `parent_0`, `parent_1`, … |
| `GraphOps.ChildIdInjective` | src/lib/store.ts:133-134 | siblings get distinct ids |
| `GraphOps.ChildIds` | src/lib/store.ts:131-146 | the collected child ids are `parent_0 … parent_{n-1}` in response order |
| `GraphOps.NewNodesContents` | src/lib/store.ts:130-146 | each response record becomes exactly one node under `parent_i`, and no other node is created |
| `GraphOps.InstallChildrenEffect` | src/lib/store.ts:148-158 | on success the parent keeps its fields but its `childrenIds` are replaced by the generated ids; each generated id holds its new leaf; every other entry is unchanged and nothing else is added |
| `GraphOps.InstallKeepsKeysMatchIds` | src/lib/store.ts:148-156 | installing children keeps every node stored under its own id |
| `GraphOps.InstalledChildrenResolve` | src/lib/store.ts:148-156 | after installation, `getNodeChildren(parent)` returns the generated nodes, one per record, in response order |
| `Store.GraphStore.constructor` | src/lib/store.ts:60-85 | the initial state is the seed map, an empty path, nothing loading or in flight, the chat closed and idle, and the filler conversation |
| `Store.GraphStore.SelectNode` | src/lib/store.ts:88-101 | the path is cut and extended; generation begins iff the node is stored with no children and is not in flight; nothing else changes |
| `Store.GraphStore.BeginGeneration` | src/lib/store.ts:103-119 | a parent already in flight changes nothing and sends no request; otherwise the parent joins the in-flight set, loading is raised unless silent, and the request carries the path titles |
| `Store.GraphStore.CompleteGeneration` | src/lib/store.ts:127-169 | success installs the children and clears loading; failure leaves the map alone and clears loading unless silent; either way only the parent leaves the in-flight set |
| `Store.GraphStore.ToggleChat` | src/lib/store.ts:180-182 | the chat panel flag flips and nothing else changes |
| `Store.GraphStore.ResetChat` | src/lib/store.ts:184-189 | the log becomes the single greeting and the active node title is cleared |
| `Store.GraphStore.AddMessage` | src/lib/store.ts:191-195 | exactly one message is appended and earlier ones are unchanged |
| `Store.GraphStore.BeginChat` | src/lib/store.ts:197-220 | the panel opens and is loading, the node title is remembered, the prompt is appended, and the request carries the prior history |
| `Store.GraphStore.CompleteChat` | src/lib/store.ts:222-232 | exactly one model message is appended (the response, or the apology) and chat loading ends |
| `Store.GraphStore.TriggerChat` | src/lib/store.ts:197-233 | with nothing in between, the log grows by the prompt and then one reply, the request sent is the prompt with the log from before it, and the panel is left open and idle |
| `Store.ToggleChatTwice` | src/lib/store.ts:180-182 | toggling the chat twice restores the whole state |
| `Store.BeginGenerationTwice` | src/lib/store.ts:103-113 | a second generation for a parent in flight sends nothing: at most one request per parent; the parent is in flight afterwards, loading is on exactly when a request was sent or it already was, and the path, the node map and the chat state are unchanged |
| `ChatLog.Prompt` | src/lib/store.ts:206-208 | a non-empty specific question is used verbatim; otherwise the prompt is exactly "Tell me about <node> in the context of <context>." (its lead, the node title, the context link, the context title and the final period, at their positions); the prompt is never empty |
| `ChatLog.ReplyMessage` | src/lib/store.ts:225-229 | the reply is a model message holding the response, or the fixed apology on failure |
| `HoverCard.SideTop` | src/components/HoverCard.tsx:41-52 | the top is at least the margin, and exactly the margin in a viewport shorter than the popup plus both margins; in a tall enough viewport the bottom stays above the lower margin; an anchor that fits is kept; the top only moves down to reach the margin, and when it moves up its bottom is flush with the lower margin (if that leaves the top at or below the upper margin) |
| `HoverCard.ClampedLeft` | src/components/HoverCard.tsx:55-89 | centre mode: within both margins in a wide enough viewport, unchanged when it fits, flush with the overflowing margin otherwise; left mode: the left edge is past the margin, never moves left, is unchanged when it fits and flush with the margin otherwise; right mode: the right edge is inside the margin, never moves right, is unchanged when it fits and flush with the margin otherwise |
| `HoverCard.LayoutStyles` | src/components/HoverCard.tsx:91-111 | above and below, the popup is one gap from the anchor and its left is the centre clamp of the anchor's centre, so it is centred within the margins; beside the anchor the top is `getSideTop` of the anchor's top and the left is the left-extending clamp of `anchor.left - gap` (position left) or the right-extending clamp of `anchor.right + gap` (position right), so it is vertically clamped and kept on screen on its open side |
| `GraphView.ChildRows` | src/components/GraphView.tsx:21-28 | at most one row per path entry, and every row is non-empty |
| `GraphView.ChildRowsSingle` | src/components/GraphView.tsx:24-27 | one path entry yields its children as one row when it has any, and no row otherwise |
| `GraphView.ChildRowsAppend` | src/components/GraphView.tsx:21-28 | the rows of a concatenated path are the rows of its parts in order; with `ChildRowsSingle`, the rows are the children of exactly the path entries that have any, in path order |
| `GraphView.BuildRows` | src/components/GraphView.tsx:14-31 | row 0 is the root cards, the later rows are the non-empty children rows in path order, and there are at most `1 + |activePath|` rows |
| `GraphView.ChildRowsAligned` | src/components/GraphView.tsx:21-28 | when no path entry has an empty children row, row `k + 1` holds exactly the children of `activePath[k]` |
| `GraphView.ClickFlags` | src/components/GraphView.tsx:39-40 | after a click at row `depth`, the clicked card is the only active card of its row; rows above keep their flags; the row below has no selection |
| `GraphView.ClickCard` | src/components/GraphView.tsx:48 | a click selects the card's node at its row index, and the card becomes active; the node map and chat fields are unchanged; a generation that starts marks the card in flight and raises loading, otherwise the in-flight set and loading stay as they were |
| `ChatList.TruncatePreview` | src/components/chat/ChatList.tsx:32 | content of at most 60 characters is kept; longer content becomes its first 60 characters plus "...", 63 characters in all |
| `ChatList.SessionPreview` | src/components/chat/ChatList.tsx:30-33 | a session with no messages previews as "New conversation"; otherwise the preview is the last message cut to 60 characters plus "..." when longer (`TruncatePreview`) |
| `ChatList.Items` | src/components/chat/ChatList.tsx:25-29 | at most one item per listed id, only for ids that have a session; each shows its session's title and preview, and is active iff its id is the active chat id |
| `ChatList.ChatListView` | src/components/chat/ChatList.tsx:14-21 | the empty state is shown exactly when the list order is empty |
| `ChatList.ItemsComplete` | src/components/chat/ChatList.tsx:25-27 | every listed id that has a session gets an item |
| `ChatList.ItemsAppend` | src/components/chat/ChatList.tsx:25 | items appear in list order: listing a concatenation concatenates |
| `ChatList.ItemsAllPresent` | src/components/chat/ChatList.tsx:25-27 | when every id has a session, item `i` is for the `i`-th listed id |
| `ChatList.AtMostOneActive` | src/components/chat/ChatList.tsx:29 | with no repeated ids in the list order, at most one item is active |

## Left out

- The generation and chat endpoints (`src/app/api/generate/route.ts`, `src/app/api/chat/route.ts`) are calls into external LLM SDKs with prompt text. They are not part of this model. Their results reach the store as the `GenerationOutcome` and `ChatOutcome` parameters.
- `fetch`, `await` and JSON decoding are modelled only as a begin step and a complete step. Every way a request can fail becomes one failure outcome: a thrown fetch, a non-OK status, or a `children` field that is not an array. A `response` field that is missing on an OK reply is not modelled.
- The `console.log` and `console.error` calls are logging only and are left out.
- Zustand's `create`/`set`/`get`, React state and effects, `createPortal`, the framer-motion variants and `getMotionValues` are framework plumbing. The viewport size and the anchor rectangle are parameters.
- The popup's constant style fields are left out. So are the card's description and questions fallbacks at HoverCard.tsx:15-16, which only feed rendering. So is the early `null` return when nothing is mounted or there is no anchor.
- The seed taxonomy file is not part of this model. The roots are an input sequence.
- A node record holds only the typed fields of `Node`. The extra fields that `...root` and `...child` copy into stored nodes (for example a root's `children`) are not kept.
- JavaScript numbers are modelled as exact reals, so floating-point rounding in the popup arithmetic is not captured.
- `ChatList.TruncatePreview`: lengths count Unicode scalar values, while `substring` and `length` count UTF-16 code units. The two differ on text outside the Basic Multilingual Plane.
- `Store.GraphStore.SelectNode`: `depth` is a natural number, because the view passes row indices. JavaScript's `slice` with a negative depth, which counts from the end, is not modelled.
- `Store.GraphStore.BeginGeneration` requires the parent to be stored in the node map, because its only caller passes a stored node. A call with a node outside the map is not modelled.
- store.ts has no `childrenPages`, pagination cursor, chat sessions, streaming or suggested questions, so none are modelled. `childrenPages` is declared in `src/types/graph.ts` but never used.
- `ChatList` reads `chatSessions`, `chatListOrder`, `activeChatId` and `switchChat`, which store.ts does not define. The first three are parameters here. The `switchChat` click is not modelled.
- `ChatSidebar.tsx`, `ChatExpanded.tsx`, `NodeCard.tsx`, `MarkdownContent.tsx`, `SuggestedQuestions.tsx`, `page.tsx` and `layout.tsx` only render, so they are not part of this model.
