# Chat transcript and markdown rendering of the case-law chatbot front end

This project models the two pieces of the chatbot's web front end that carry
behaviour of their own, and proves properties of the model.

- **The conversation on the chat page** (`app/page.tsx`, module `Conversation`).
  A transcript is a sequence of messages `{role: user | assistant, content?, status?: thinking}`.
  It starts with one greeting from the assistant. `handleSend` updates it twice.
  On submit it appends the user's message and a pending assistant placeholder.
  When the answer arrives it takes the list it built at submit time, drops that list's
  last entry and appends `{assistant, content: answer}`. The class `ChatPage` holds
  `messages` and has the two updates as methods, `Submit` and `Resolve`. Each method is
  specified by a pure function, `Submitted` or `Resolved`, and the lemmas are stated
  about those functions. The request body is modelled as a value holding only the
  question. `data.answer` may be absent, so the answer is an `Option<string>`.
- Two usage examples, `Conversation.HelloExchange` and `Conversation.InterleavedExchange`,
  drive a `ChatPage` through one exchange and through a second submit made before the
  first answer arrives, and check the resulting list.
- **The chat area** (`components/chatarea.tsx`, modules `MarkdownRenderer` and `ChatArea`).
  `ChatArea` picks one bubble per message by role and status. `MarkdownRenderer`
  is the table of element overrides handed to the markdown library. Links get
  `target="_blank"` and `rel="noopener noreferrer"`. `h3` becomes `strong`.
  `code` is classified with `/language-(\w+)/`: a match gives a highlighted block of the
  text with one final newline removed (`replace(/\n$/, "")`) and a Copy button for the
  same text; no match gives inline `code`. The library's parser is not modelled.
  Its output, an element tree, is the input, and `Render` applies the overrides to it
  bottom-up.

The code has no error path, no request sequence numbers and no multi-turn context,
and the model keeps it that way:
- no error path: a rejected `fetch` or `json()` leaves the placeholder pending; an error the
  backend returns as JSON (HTTP 500 with `{"detail": …}`) resolves it with an absent answer,
  shown as empty markdown;
- no request sequence numbers: a late answer is applied to the snapshot it
  belongs to, whatever happened meanwhile (`OverlappingSendsStrandPlaceholder`);
- no multi-turn context: the request carries only the latest question.

## Model

| member | source | states |
|---|---|---|
| Conversation.InitialMessages | app/page.tsx:13-18 | the conversation starts with exactly one message, from the assistant, with content and not pending |
| Conversation.InitialHasNothingPending | app/page.tsx:13-18 | the initial conversation has no `thinking` message |
| Conversation.Submitted | app/page.tsx:31-41 | submit adds exactly two entries and leaves every earlier message in place; the two are the user's message with the submitted text, then an assistant placeholder with status `thinking` and no content; the pending count grows by one |
| Conversation.Resolved | app/page.tsx:60-66 | built with `DropLast` (`slice(0, -1)`, app/page.tsx:61); resolve keeps the snapshot's length (a one-element list from an empty snapshot, as `slice(0, -1)` gives `[]`), keeps everything but the last entry, and makes the last entry the assistant's answer with no status; a pending last entry is no longer counted |
| Conversation.SubmitThenResolve | app/page.tsx:31-66 | a full exchange appends exactly the user's message followed by the answer, and leaves the number of pending entries as it was |
| Conversation.PlaceholderLifecycle | app/page.tsx:31-66 | from a conversation with nothing pending, submit leaves exactly one `thinking` entry and it is the last; resolving it leaves none |
| Conversation.OverlappingSendsStrandPlaceholder | app/page.tsx:30-66 | with a second submit before the first answer, the first answer discards the second turn, and the second answer brings back the first placeholder, which then stays pending |
| Conversation.ChatPage.constructor | app/page.tsx:22 | the page state starts as `initialMessages` |
| Conversation.ChatPage.Submit | app/page.tsx:31-54 | `messages` becomes the submitted list, which is also returned as the snapshot; the request carries the submitted text as `question` and nothing else |
| Conversation.ChatPage.Resolve | app/page.tsx:56-66 | `messages` becomes the resolution of the submit-time snapshot, independent of what `messages` holds when the answer arrives |
| MarkdownRenderer.KindOf | components/chatarea.tsx:13-69 | an element is handled by the link, `h3` or `code` override exactly when its tag is `a`, `h3` or `code` |
| MarkdownRenderer.SafeLinkAttrs | components/chatarea.tsx:14-18 | a link's attributes always have `target="_blank"` and `rel="noopener noreferrer"`, overriding incoming values; every other incoming attribute is kept unchanged |
| MarkdownRenderer.FirstMatchFrom | components/chatarea.tsx:70 | finds the leftmost position where `language-` is followed by a word character, or reports that there is none |
| MarkdownRenderer.WordRun | components/chatarea.tsx:70 | the greedy `\w+`: the longest prefix made only of `[A-Za-z0-9_]` |
| MarkdownRenderer.LanguageOf | components/chatarea.tsx:70-71 | the class name matches iff `language-` is followed by a word character somewhere; then the language is non-empty and is the maximal word run after the leftmost such occurrence |
| MarkdownRenderer.MaximalWordRunUnique | components/chatarea.tsx:70 | the maximal word run at a position is unique |
| MarkdownRenderer.LanguageOfIsTheCapture | components/chatarea.tsx:70-76 | any string that is the maximal word run after the leftmost match is the language passed to the highlighter |
| MarkdownRenderer.TrimFinalNewline | components/chatarea.tsx:74 | the result is the text with exactly one final newline removed, or the text itself when it does not end with a newline |
| MarkdownRenderer.TrimUndoesNewline | components/chatarea.tsx:74 | trimming undoes appending one newline |
| MarkdownRenderer.TrimRemovesOnlyOneNewline | components/chatarea.tsx:74 | `"a\n\n"` trims to `"a\n"`, and `"a"` stays `"a"` |
| MarkdownRenderer.RenderCode | components/chatarea.tsx:69-124 | the class name is read with `ClassNameOf` (the class name, or `""` when absent, :70) and the text with `ChildrenString` (`String(children)`, :74, :91: the text children in order, or `"undefined"` when there are none); a code element becomes a fenced block iff its class name matches; the block shows the trimmed text in the captured language, with the remaining props, and its Copy button copies the same text, computed by a second, separate trim as at :91; otherwise it is inline `code` with its props and children untouched and no Copy button |
| MarkdownRenderer.RenderElement | components/chatarea.tsx:13-126 | `a` gets the safe link attributes, `h3` becomes `strong`, `code` goes through the classifier, and every other tag (`h1`, `h2`, `p`, `ul`, `li` and the library's defaults) keeps its tag, props and children |
| MarkdownRenderer.Render | components/chatarea.tsx:8-128 | the markdown component: text stays text, and an element is rendered by the override table from its tag, props and already-rendered children, so the result is always text or an element; the whole-tree properties below are stated about it |
| MarkdownRenderer.RenderedLinksAreSafe | components/chatarea.tsx:14-26 | whatever the markup, every link anywhere in the rendered tree carries `target="_blank"` and `rel="noopener noreferrer"` |
| MarkdownRenderer.NoThirdLevelHeading | components/chatarea.tsx:47-52 | no `h3` element appears anywhere in the rendered tree |
| MarkdownRenderer.CopiedTextIsShownText | components/chatarea.tsx:72-107 | every Copy button in the rendered tree sits right after a highlighted block and copies exactly the text that block shows |
| MarkdownRenderer.FencedBlockExample | components/chatarea.tsx:69-107 | a `language-js` code element with text `console.log(1)\n` renders as one highlighted `js` block showing and copying `console.log(1)` |
| MarkdownRenderer.EmptyFencedBlockExample | components/chatarea.tsx:69-92 | a `language-js` code element with no children shows and copies `"undefined"`, as `String(undefined)` gives |
| MarkdownRenderer.ThirdLevelHeadingExample | components/chatarea.tsx:47-52 | a level-3 heading `Note` renders as `strong` text `Note` |
| ChatArea.RenderMessage | components/chatarea.tsx:148-167 | a pending assistant message shows the loading indicator; any other assistant message shows its content as markdown, or `""` when absent; a user message shows its raw content, whatever its status |
| ChatArea.RenderTranscript | components/chatarea.tsx:148-168 | one bubble per message, in order, each given by the per-message dispatch |
| ChatArea.RenderAfterSubmit | components/chatarea.tsx:148-167 | right after submit the transcript shows the earlier bubbles, then the user's text, then the loading indicator |
| ChatArea.RenderAfterResolve | components/chatarea.tsx:148-167 | after the answer the loading indicator is replaced by the answer's markdown, or empty markdown when the answer is absent |
| ChatArea.NothingPendingNoIndicator | components/chatarea.tsx:149-150 | a conversation with nothing pending shows no loading indicator |

## Left out

- Network and JSON decoding (`fetch`, `response.json()`): the answer is a parameter of `Resolve`. A rejected `fetch` or `json()` means `Resolve` is never called, so the placeholder stays `thinking`. An HTTP error whose body is JSON without `answer` (the backend's 500 with `{"detail": …}`) is `Resolve(snapshot, None)`. The source has no other error path and neither does the model.
- `data.answer` of a type other than string (a number, `null`): modelled as absent or as a string only.
- React scheduling: `setMessages` is modelled as an immediate assignment.
- Conversation.ChatPage.Submit: reads the page's current `messages`, not the value captured when the component last rendered, so a stale render closure is not modelled.
- Side effects: the scroll-to-bottom effects, `console.log`, and the clipboard write (`navigator.clipboard.writeText`); the model keeps only the text handed to the clipboard.
- Markdown parsing (react-markdown with remark-gfm) and syntax highlighting (the highlighter component and its theme): the element tree is taken as input and the highlighter as an output node. Inline styles are cosmetic and are not modelled.
- MarkdownRenderer.CodeText: `String(children)` is modelled as the concatenation of the code element's text children, or `"undefined"` when it has none (`ChildrenString`); JavaScript's rendering of an array of several children (joined with commas) is not modelled.
- MarkdownRenderer.RenderCode: the props spread onto the highlighter (components/chatarea.tsx:86) comes after `styles`, `language`, `PreTag` and `customStyle`, so props carrying those keys would override them; the model passes the language explicitly and leaves the other three out as cosmetics. `children` was destructured out of the props (:69) and cannot be overridden.
- The input component (`components/inputarea.tsx`) is not part of this model, so nothing is said about whether it prevents a second submit while an answer is pending.
- The answering backend (`server.py`), the proxy configuration (`next.config.js`), the loading indicator's markup (`components/ui/loading.tsx`) and the navigation bar (`components/main-nav.tsx`): external services, configuration or static markup.
