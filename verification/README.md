# LazyVim interactive cheatsheet — a verified model of its core

The cheatsheet is a terminal program. It lists LazyVim shortcuts, filters them
with a fuzzy search as the user types, and draws a keyboard on which the keys of
the selected shortcut light up. This project models the four pieces of logic
behind that screen and proves what each one promises.

- **The notation parser** (`Commands`). `Command::parse_keys` turns a shortcut
  notation such as `<leader>ff` into a flat list of key presses. A `<…>` token
  gives one key, renamed through a case-insensitive alias table, or kept
  verbatim when the table does not know it. A `-` or `+` outside a token gives
  nothing. Every other character gives one key. The module also holds the
  catalogue records `Command`, `Category` (with `as_str` and `all`), `Mode`
  (default `Normal`) and `KeyPress`.
- **The keyboard highlighter** (`Keyboard`). It picks one of two 13-line layouts:
  the shifted one when a `shift` key is highlighted. It cuts every line into
  label spans and single-character border spans, and styles each label.
  - `render` styles labels through a key→style map (leader, modifier or
    highlight).
  - `render_legend` styles labels through a key→frame map and an 8-colour
    palette that cycles.
  - A label is looked up by a direct lowercase match first, then by the prefix
    alias table (`bsp`, `ent`, `ct`, `mnu`, `sup`), then by a single-character
    check.
  - The loops `RenderLine`, `ScanLabel`, `RenderLayout`, `BuildHighlightMap`
    and `BuildFrameMap` are proved against the functions `LineSpans`,
    `LabelEnd`, `RenderedLines`, `HighlightMap` and `FrameMap`; `Render` and
    `RenderLegend` put them together.
- **The search engine** (`Search`). `SearchEngine::search` returns every command
  with score 0 for an empty query. Otherwise it scores each command as the
  largest of its weighted field scores (description ×3, keys ×2, category ×1).
  It drops commands that match on no field, then sorts stably, best score
  first.
  - The fuzzy matcher is a parameter: a function from (haystack, pattern) to an
    optional score.
  - A result carries the command's catalogue index.
  - The method `Search` is proved against the reference function `Rank`.
- **The controller** (`Ui`). The class `App` holds the query, the filtered
  command indices, the selected row and the quit flag. `handle_input` is a step
  on one key event:
  - Esc clears the query, or quits when the query is already empty.
  - Ctrl-C quits.
  - A character is appended to the query, and Backspace removes the last one;
    both re-run the search.
  - Down/Tab and Up/BackTab move the selection cyclically.

  The methods are proved against the reference function `Step`. The class
  predicate `Valid` (every listed index names a command, and the selection is
  a listed row, or row 0 of an empty list) holds after the constructor and is
  kept by every method that changes the state.
  `get_highlight_keys` passes the parsed keys through the whitelist of keys the
  keyboard knows.

Strings are sequences of characters. Case mapping, `trim` and
`is_alphanumeric` are modelled on ASCII (`Ascii`).

## Model

| member | source | states |
|---|---|---|
| `Commands.ParseKeys` | src/commands.rs:97-147 | The keys of `parse_keys` are exactly `Parse(keys)`, and there are never more keys than characters. |
| `Commands.Parse` | src/commands.rs:102-143 | Each iteration consumes at least one character and emits at most one key, so the output is never longer than the input. |
| `Commands.ReadToken` | src/commands.rs:103-111 | The token body runs from just after `<` to the first `>`, which is consumed, or to the end of the string. |
| `Commands.SplitToken` | src/commands.rs:103-111 | A body never holds `>`. The input is the body, `>` and the rest, or the whole input is the body when no `>` follows. |
| `Commands.SplitTokenClosed` | src/commands.rs:105-109 | A token body ends at the first `>`, whatever follows it. |
| `Commands.SplitTokenUnclosed` | src/commands.rs:105-111 | Without a closing `>` the token swallows the rest of the string. |
| `Commands.ParseClosedToken` | src/commands.rs:103-136 | A closed `<body>` gives exactly one key, `SpecialKey(body)`, and parsing resumes after the `>`. |
| `Commands.ParseUnclosedToken` | src/commands.rs:103-136 | An unclosed `<body` gives exactly one key and ends the parse. |
| `Commands.ParseLiteral` | src/commands.rs:137-143 | Outside a token, `-` and `+` give no key, and any other character `c` gives exactly `KeyPress(c, false, false)`. |
| `Commands.SpecialKeyShape` | src/commands.rs:113-130 | A token is a leader iff its lowercased body is `leader`/`space`, iff its key is `Space`. It is a modifier iff the body is one of c/ctrl/control/a/alt/m/meta/s/shift, iff its key is Ctrl/Alt/Shift. An unknown body is kept verbatim with both flags false. |
| `Commands.ParseFlags` | src/commands.rs:114-142 | Every parsed key is a leader exactly when it is `Space`, and a modifier exactly when it is Ctrl, Alt or Shift. |
| `Commands.ParseWithoutTokens` | src/commands.rs:137-143 | A notation without `<` gives one non-leader, non-modifier, single-character key per character other than `-` and `+`. |
| `Commands.ParseLeaderFF` | src/commands.rs:161-175 | `<leader>ff` parses to exactly three keys: the leader `Space`, `f`, `f`. |
| `Commands.ParseCtrlW` | src/commands.rs:178-192 | `<C-w>v` parses to `C-w` (kept whole, no flags) followed by `v`. |
| `Commands.AllCategories` | src/commands.rs:70-86 | `Category::all` holds 13 pairwise-distinct categories, from `General` to `Plugin`. |
| `Commands.AllCategoriesComplete` | src/commands.rs:70-86 | Every category appears in `Category::all`. |
| `Commands.Category.AsStr` | src/commands.rs:52-68 | Every category label is a non-empty word of ASCII letters starting with a capital. |
| `Commands.CategoryLabelsDistinct` | src/commands.rs:52-68 | Two categories have the same label iff they are the same category, and the same lowercased label (as the search sees it) iff they are the same category. |
| `Commands.Mode.AsStr` | src/commands.rs:22-31 | Every mode label is a non-empty word of ASCII letters starting with a capital. |
| `Commands.ModeLabelsDistinct` | src/commands.rs:22-31 | Two modes have the same label iff they are the same mode. |
| `Keyboard.FrameColor` | src/keyboard.rs:233 | `FRAME_COLORS[frame_idx % len]` is always a palette colour, and frame `i` below 8 gets the `i`-th colour. |
| `Keyboard.FrameColorCycle` | src/keyboard.rs:8-17 | Two frames get the same palette colour iff their indices agree modulo 8, and the palette repeats every 8 frames. |
| `Keyboard.LayoutLines` | src/keyboard.rs:35-69 | Both layouts have 13 lines of 46 characters. |
| `Keyboard.LayoutVariants` | src/keyboard.rs:35-69 | The shifted and plain layouts differ exactly in the four glyph rows 3, 5, 7 and 9. |
| `Keyboard.LabelEnd` | src/keyboard.rs:113-117 | A label runs to the first box-drawing character at or after its start, or to the end of the line. |
| `Keyboard.ScanLabel` | src/keyboard.rs:113-117 | The inner scan stops exactly at `LabelEnd`. |
| `Keyboard.LabelEndUnique` | src/keyboard.rs:115-117 | Any position that has no box-drawing character before it and a box-drawing character (or the end) at it is `LabelEnd`. |
| `Keyboard.SegmentsConcat` | src/keyboard.rs:107-132 | The span texts of a line, joined, give back the line from the starting position: nothing dropped, repeated or moved. |
| `Keyboard.LineSpansConcat` | src/keyboard.rs:102-134 | The spans of a line hold its text in order, whatever styles they get. |
| `Keyboard.SegmentsShape` | src/keyboard.rs:107-132 | Every span is non-empty. A label span holds no box-drawing character and is followed by one, or by the end of the line. Any other span is one character. |
| `Keyboard.LineSpansBorders` | src/keyboard.rs:127-131 | A span that does not start a label is a single character in the normal style. |
| `Keyboard.LineSpansUnstyled` | src/keyboard.rs:123 | With an empty key map, or an empty frame map, every span of a line is in the normal style. |
| `Keyboard.NextSpan` | src/keyboard.rs:108-131 | One step of the walk emits the next segment with its style and advances past it. |
| `Keyboard.RenderLine` | src/keyboard.rs:102-134 | The walk over one line yields `LineSpans(line)`, whose texts join back to the line. |
| `Keyboard.RenderLayout` | src/keyboard.rs:102-137 | The loop over the layout yields one span line per layout line, each joining back to its layout line. |
| `Keyboard.Get` | src/keyboard.rs:144 | A map lookup finds a value iff the key is present, and then it is the stored value. |
| `Keyboard.AliasLookup` | src/keyboard.rs:149-163 | The alias loop finds nothing iff no alias applies. Otherwise it returns the value of the full name of the first alias whose short form prefixes the label and whose full name is in the map. |
| `Keyboard.FindLabel` | src/keyboard.rs:140-173 | A direct lowercase match wins. Otherwise the first applicable alias decides. The single-character branch adds no match, and whatever is found is the value of some key of the map. |
| `Keyboard.FindFrameStyle` | src/keyboard.rs:228-264 | A label gets a colour iff the shared lookup finds a frame for it. A direct match takes the palette colour of its frame index modulo 8, and any colour found is that of the frame of some key of the map. |
| `Keyboard.KeyStyle` | src/keyboard.rs:89-96 | A key gets the leader style iff it lowercases to `space`, the modifier style iff it lowercases to ctrl/alt/shift/super, and the highlight style otherwise. |
| `Keyboard.LastWithLower` | src/keyboard.rs:88-100 | The last highlighted key that lowercases to a name, or -1 when none does. |
| `Keyboard.HighlightMapLookup` | src/keyboard.rs:87-100 | A lowercase name is in the highlight map iff some key lowercases to it, and it maps to the style of the last such key: a later duplicate wins. |
| `Keyboard.BuildHighlightMap` | src/keyboard.rs:87-100 | The insertion loop builds `HighlightMap(keys)`. |
| `Keyboard.Render` | src/keyboard.rs:72-138 | `render` draws the layout chosen by whether some key lowercases to `shift`, each label styled through the highlight map, each line joining back to the layout line. |
| `Keyboard.RenderDirectMatch` | src/keyboard.rs:123-146 | In `render`, a label whose lowercase form is a highlighted key takes the style of the last such key. |
| `Keyboard.RenderWithoutKeys` | src/keyboard.rs:74-137 | With no highlighted keys every span of every line is in the normal style. |
| `Keyboard.BackspaceAlias` | src/keyboard.rs:149-161 | The `Bsp` label lights up for a highlighted `Backsp` through the alias table. |
| `Keyboard.InsertFrameLookup` | src/keyboard.rs:188-190 | Inserting one frame's keys adds exactly the lowercase forms of its keys, each mapped to that frame, and leaves the other entries alone. |
| `Keyboard.FrameMapLookup` | src/keyboard.rs:186-191 | A name is in the frame map iff some frame holds a key lowercasing to it, and it maps to the index of the last such frame. |
| `Keyboard.FrameMapLast` | src/keyboard.rs:186-191 | The last frame holding a key is the frame that key maps to. |
| `Keyboard.BuildFrameMap` | src/keyboard.rs:186-191 | The nested insertion loops build `FrameMap(frames)`. |
| `Keyboard.RenderLegend` | src/keyboard.rs:176-226 | `render_legend` draws the layout chosen by whether some frame holds `shift`, each label coloured through the frame map, each line joining back to the layout line. |
| `Keyboard.LegendDirectMatch` | src/keyboard.rs:211-235 | In `render_legend`, a label whose lowercase form is held by some frame takes the palette colour of the last such frame, the index taken modulo 8. |
| `Keyboard.LegendWithoutKeys` | src/keyboard.rs:176-226 | With no frames, or only empty ones, every span of the legend is in the normal style. |
| `Search.Improve` | src/search.rs:38 | `map_or`/`max` yields a score no lower than the new weighted score or the previous best, and equal to one of them. |
| `Search.BestScoreIsMax` | src/search.rs:33-50 | A command has a score iff one of its three weighted fields matches, and the score is the largest weighted field score (not a sum). |
| `Search.ScoreCommand` | src/search.rs:33-50 | The per-command loop body computes `BestScore`. |
| `Search.Search` | src/search.rs:23-60 | `search` returns `Rank(commands, query)`. |
| `Search.ScoredIncreasing` | src/search.rs:32-55 | The loop keeps hits in catalogue order, at most one per command, each index within the catalogue. |
| `Search.ScoredSound` | src/search.rs:52-54 | Every kept hit carries its command's best score. |
| `Search.ScoredComplete` | src/search.rs:52-54 | Every command with a score is kept. |
| `Search.KeptIncreasing` | src/search.rs:32-55 | Over any list of optional scores, the kept hits come in position order, at most one per position, each within the list. |
| `Search.KeptSound` | src/search.rs:52-54 | Every kept hit carries the score present at its position. |
| `Search.KeptComplete` | src/search.rs:52-54 | Every score present is kept as a hit at its position. |
| `Search.InsertPermutes` | src/search.rs:58 | One insertion step adds exactly the inserted hit. |
| `Search.SortPermutes` | src/search.rs:58 | The sort is a permutation of the hits it is given. |
| `Search.InsertOrdered` | src/search.rs:58 | Inserting a hit from later in the catalogue keeps the order "better score first, then catalogue order". |
| `Search.SortOrdered` | src/search.rs:58 | Sorting hits in catalogue order yields best score first, with ties in catalogue order (stability). |
| `Search.RankMembers` | src/search.rs:29-59 | For a non-empty query the results are exactly the hits the loop keeps. |
| `Search.RankMatches` | src/search.rs:29-59 | For a non-empty query a command is listed iff one of its fields matches, and then with its best weighted score. |
| `Search.RankDistinct` | src/search.rs:24-59 | No command is listed twice, and there are never more results than commands. |
| `Search.RankOrdered` | src/search.rs:24-59 | Results come best score first, equal scores in catalogue order. |
| `Search.RankEmptyQuery` | src/search.rs:24-27 | An empty query lists every command once, in catalogue order, with score 0. |
| `Search.RankIgnoresCase` | src/search.rs:29-48 | The results do not depend on the case of the query. |
| `Ui.App.constructor` | src/ui.rs:24-35 | `App::new` starts with an empty query, every catalogue index in order, the first row selected and no quit request, and the invariant holds. |
| `Ui.App.UpdateSearch` | src/ui.rs:37-49 | `update_search` stores the indices of the search results for the current query, in result order, and selects the first row; afterwards `Valid` holds. |
| `Ui.App.SelectedCommand` | src/ui.rs:51-55 | `selected_command` returns the command of the selected row, or nothing; while `Valid` holds it returns a command iff the list is non-empty. |
| `Ui.App.HandleInput` | src/ui.rs:57-100 | No event changes nothing. A key event changes the state exactly as `Step` says. `Valid` is kept. |
| `Ui.App.SelectNextRow` | src/ui.rs:80-85 | Down/Tab moves the selection as `SelectNext` says, keeping `Valid`. |
| `Ui.App.SelectPreviousRow` | src/ui.rs:86-94 | Up/BackTab moves the selection as `SelectPrevious` says, keeping `Valid`. |
| `Ui.App.GetHighlightKeys` | src/ui.rs:201-269 | `get_highlight_keys` returns `HighlightKeys(Parse(cmd.keys))`. |
| `Ui.DropLast` | src/ui.rs:77 | `pop` removes the last character of a non-empty query and leaves an empty one empty. |
| `Ui.FilterInRange` | src/ui.rs:37-47 | Every stored index names a command of the catalogue. |
| `Ui.InitialInv` | src/ui.rs:24-35 | The initial state satisfies the invariant. |
| `Ui.Step` | src/ui.rs:60-96 | The quit flag is set iff it was set, or Esc came on an empty query, or Ctrl-C came; it is never cleared. The query only keeps, clears, drops its last character or gains the typed one. Whenever the query or the list changes, the list is the search for the new query and the first row is selected. Other keys change nothing. |
| `Ui.StepPreservesInv` | src/ui.rs:60-96 | Every key event keeps the listed indices in range and the selection on a listed row (or 0 on an empty list). |
| `Ui.SelectedWhenListed` | src/ui.rs:51-55 | Under the invariant, `selected_command` is nothing iff the selection is out of range of the list, something iff the list is non-empty, and then it is the selected row's command. |
| `Ui.RequerySelectsBest` | src/ui.rs:37-49 | After a new query the first row holds a command with the top score, and nothing is selected when nothing matches. |
| `Ui.NextThenPrevious` | src/ui.rs:80-94 | On a listed row, Down then Up, or Up then Down, returns to the same state. |
| `Ui.MovingKeepsQuery` | src/ui.rs:80-94 | Moving the selection changes only the selected row, and keeps it on a listed row. |
| `Ui.TypeThenDelete` | src/ui.rs:72-79 | Typing a character then Backspace gives back the query, searched afresh. |
| `Ui.EscClearsQuery` | src/ui.rs:61-67 | Esc with a non-empty query clears it and brings back the initial listing. |
| `Ui.Quitting` | src/ui.rs:61-71 | Esc on an empty query, or Ctrl-C, sets the quit flag and changes nothing else (Ctrl-C does not type `c`). Nothing clears the flag once set. |
| `Ui.FilterIgnoresCase` | src/ui.rs:37-47 | The filtered list does not depend on the case of the query. |
| `Ui.HighlightKeysSound` | src/ui.rs:201-269 | The output is never longer than the parse. Each name is the keyboard's name for some parsed key, and every name is itself whitelisted. |
| `Ui.HighlightKeysSnoc` | src/ui.rs:206-266 | Each parsed key adds its whitelisted name, or nothing when it is not on the whitelist (`continue`), in the original order. |
| `Ui.CanonicalKey` | src/ui.rs:207-263 | A key has a keyboard name iff its lowercase form is one of the eight named keys or one of the 47 known single characters, and the name equals the key up to case. |
| `Ui.CanonicalFixed` | src/ui.rs:207-263 | Looking up a name the whitelist produces gives that name again. |
| `Ui.CanonicalOf` | src/ui.rs:207-263 | `Space`, `f` and `v` are whitelisted as themselves, and `C-w` is dropped. |
| `Ui.LeaderAndModifiersShown` | src/ui.rs:201-269 | A parsed leader reaches the keyboard as `Space` with the leader style. A parsed modifier reaches it under its own name with the modifier style. |
| `Ui.HighlightLeaderFF` | src/ui.rs:201-269 | `<leader>ff` lights up `Space`, `f`, `f`. |
| `Ui.HighlightCtrlW` | src/ui.rs:201-269 | `<C-w>v` lights up only `v`. |

## Left out

- The terminal program around the core is not modelled: raw mode, the alternate screen, the main loop in `src/main.rs`, and the `app.tick()` it calls. `tick` is defined nowhere in the source, so no timing or animation behaviour exists to model. `src/main.rs:32` calls `app.tick()`, which is defined nowhere, and no code sequences frames over time or draws a one-line legend.
- `event::poll` and `event::read` become the `Option<KeyEvent>` argument of `Ui.App.HandleInput` (`None` when the 50 ms poll delivered nothing). Their I/O errors, and events other than key presses, are left out.
- All ratatui drawing is left out as screen layout: `draw`, the search box, the result list with its `take(50)` cap, and the keyboard panel.
- The SkimMatcherV2 scoring algorithm is an external library. It is the `Matcher` parameter of `Search`, so every property holds for any matcher.
- `load_commands` and the serde/JSON loading are left out as data loading through external crates. The catalogue is a parameter.
- Concrete ratatui `Style` and `Color` values are abstract tags (`Normal`, `Highlight`, `Leader`, `Modifier`, `Palette(color)`).
- `Ascii.Lower`, `Ascii.Upper`, `Ascii.Trim` and `Keyboard.IsLabelStart` cover ASCII only: Unicode case mapping, Unicode whitespace and Unicode alphanumerics are not modelled. Label recognition on the layouts is unaffected, since their labels are ASCII and their other characters (box drawing, spaces) are neither letters nor digits in Unicode either. Non-ASCII case folding of queries, descriptions and notations is not modelled, so `Search.RankIgnoresCase` and `Ui.FilterIgnoresCase` promise independence from ASCII case only (`É` is not folded to `é`).
- `Keyboard.FindLabel`: `len()` in the single-character branch counts bytes, not characters. The branch repeats the direct lookup and can never match, so the difference is not visible.
- `Keyboard.HighlightMap` keeps the upper-case entries `render` inserts. Lookups always use the lowercase label, so those entries never match anything except a letter-free key (digits, symbols), where both forms coincide.
- `Search.Search`: scores are unbounded integers, so the `i64` overflow of `score * 3` and `score * 2` is not modelled.
- `Search.Search`: `sort_by` is a library call. It is modelled by the stable insertion sort `SortDesc`, which yields the same order; the in-place algorithm of the library is not modelled.
- `Ui.App.UpdateSearch`: the `ptr::eq` position lookup is replaced by results that carry catalogue indices. The indices are the same because the catalogue is searched in place.
- `Keyboard::new` and `Default` hold no state and are not modelled. `SearchEngine::new` builds the `SkimMatcherV2` instance; the model takes that matcher as the `Matcher` parameter of `Search.Search` and the `fuzzy` field of `Ui.App`.
