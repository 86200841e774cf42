# zargs core: option registry, parse loop and string helpers

A Dafny model of the core of the `zargs` command-line option library
(`zi/zargs`). Options register a handler with a registry. One parse pass turns
`argv[1..argc)` into a token queue. If a help flag (`-h`, `--help`, `-help`)
appears anywhere, the help text is produced and nothing else happens.
Otherwise the front token is offered to the handlers in registration order,
the first handler that claims it wins, and the front token is popped. With
`remove_args` set, every token no handler claimed is written back to
`argv[1..]` in its original order, and `argc` becomes one plus their number.

Files and modules:

- `string_utils.dfy`, module `StringUtils`: `to_lower`, `explode`,
  `begins_with` and `strip_quotes` as pure functions, with the split/join
  round trips and the quote round trip.
- `handlers.dfy`, module `Handlers`: the abstract handler and the parse
  loop as specification functions.
  - A handler has a name, a type label, a default, a description and a
    current value. Its `parse` is a function from the current value and
    the queue to a `Reply`: `Declined`, `Claimed(new value, queue)` or
    `Raised(message)`, the latter standing for a thrown `zi::exception`.
  - The subset type `ParseFn` holds the handler protocol. A claim keeps the
    front token first, because the registry pops it. It may only delete
    tokens after the front, so the queue never grows or reorders.
  - `OfferFrom` is the inner handler loop, `Round` one iteration of the
    `while` loop, and `Rounds` the whole loop.
- `help.dfy`, module `HelpOutput`: the help text as a pure function.
  - The handlers are sorted by name into a copy, using `std::string`'s
    lexicographic order.
  - Each line is `"  --" + name` padded to 29 columns, then each
    `\n`-separated description piece followed by `"; "`, then
    `default=<default> (<lower-cased type>)`.
  - The text ends with the fixed notes block.
- `registry.dfy`, module `Registry`: class `Arguments`, with the fields
  `handlers` (`handlers_`) and `fileName` (`file_name_`). `argv` is an
  `array<string>`. The in/out `argc` is a parameter plus the out-parameter
  `argc'`.
  - `exit(0)` after the help text becomes the outcome `Help(text)`.
  - `exit(1)` after a handler throws becomes `Error(message)`.
  - `return true` becomes `Ok`.
  - The source's `parse_arguments` is one function. Here its steps are
    separate methods, each proved against the specification functions:
    `TokenQueue` (build the queue), `FindHelpFlag` (the help scan),
    `ConsumeTokens` (the `while` loop) and `OfferFront` (the inner handler
    loop).
- `examples.dfy`, module `Examples`: two illustrative handlers, `count`
  (claims `--count=VALUE`) and `verbose` (claims `--verbose`).
  - Parsing `--count=5 --verbose extra` sets `count` to `5` and `verbose`
    to `true`, and leaves `extra`. This is proved on the specification
    function and through `Arguments.ParseArguments` on an `argv` array.
  - The help listing puts `count` before `verbose` whatever the
    registration order.
  - A `-help` token stops the pass before any handler is consulted.

Two behaviours of the code that are easy to misread:
- With `remove_args = false`, `argc` and `argv` are left exactly as they
  were. The unmatched tokens are not dropped from them.
- A handler that throws ends the pass at once. With `remove_args`, by then
  `argc` has been reset to 1 and the tokens kept so far have already been
  written to `argv`; without it, `argc` and `argv` are untouched. The model
  says both.

## Model

| member | source | states |
|---|---|---|
| StringUtils.ToLower | zi/zargs/detail/string_utils.hpp:33-36 | the result has the input's length, each character is the input character lower-cased in the classic locale, and no upper-case ASCII letter remains |
| StringUtils.ToLowerIdempotent | zi/zargs/detail/string_utils.hpp:33-36 | lower-casing twice gives the same as lower-casing once |
| StringUtils.Explode | zi/zargs/detail/string_utils.hpp:38-42 | splitting yields at least one piece and no piece contains the splitter (every occurrence splits, adjacent splitters give empty pieces) |
| StringUtils.ExplodeCount | zi/zargs/detail/string_utils.hpp:38-42 | the number of pieces is the number of splitter occurrences plus one |
| StringUtils.JoinExplode | zi/zargs/detail/string_utils.hpp:38-42 | joining the pieces with the splitter reproduces the source exactly |
| StringUtils.ExplodeJoin | zi/zargs/detail/string_utils.hpp:38-42 | splitting the join of any non-empty list of splitter-free pieces gives that list back |
| StringUtils.BeginsWith | zi/zargs/detail/string_utils.hpp:44-47 | true exactly when the first argument is a prefix of the second |
| StringUtils.StripQuotes | zi/zargs/detail/string_utils.hpp:49-66 | inputs shorter than 2 are unchanged; the result differs from the input exactly when both ends are the same quote character (`"` or `'`), and then the input is the result wrapped in that quote, so exactly one pair is removed |
| StringUtils.StripQuotesOfQuoted | zi/zargs/detail/string_utils.hpp:58-63 | wrapping any string in a pair of matching quotes and stripping gives the string back |
| Handlers.OfferFrom | zi/zargs/arguments.hpp:127-143 | first match wins: the front token is unclaimed exactly when every handler declines; otherwise the deciding handler is the first one that does not decline, every earlier one declined, and its claim or exception is what is reported |
| Handlers.Round | zi/zargs/arguments.hpp:124-152 | every iteration of the parse loop leaves a strictly shorter queue |
| Handlers.RoundFrame | zi/zargs/arguments.hpp:127-151 | one iteration keeps the handlers and their order; only the first claiming handler's value changes; the front token is kept exactly when nobody claims it; the remaining queue is a subsequence of the tokens after the front; the pass stops exactly when a handler raises |
| Handlers.RoundsKeepOrder | zi/zargs/arguments.hpp:145-151 | the tokens no handler claimed form a subsequence of the initial queue (original relative order) and are no more numerous than it |
| Handlers.RoundsKeepHandlers | zi/zargs/arguments.hpp:128-136 | the whole pass keeps the registered handlers in registration order; only their current values change |
| Handlers.RoundsAllDeclined | zi/zargs/arguments.hpp:124-152 | when every handler declines every token, all tokens are kept, in order, and the pass completes |
| Handlers.RoundsUnclaimed | zi/zargs/arguments.hpp:145-151 | an unclaimed front token is kept ahead of everything the rest of the pass keeps |
| Handlers.RoundsClaimed | zi/zargs/arguments.hpp:132-136 | a claimed front token is dropped, the claiming handler takes its new value, and the pass goes on with the handler's queue minus the front |
| Handlers.RoundsFailed | zi/zargs/arguments.hpp:138-142 | when a handler raises, the pass ends with the error: no later token is offered to any handler and none is kept |
| HelpOutput.SortByName | zi/zargs/arguments.hpp:61-65 | the help order is a permutation of the registered handlers in which no name is less than its predecessor's |
| HelpOutput.SortedByNameAscending | zi/zargs/arguments.hpp:61-65 | in a name-sorted sequence every later name is not less than every earlier one |
| HelpOutput.LessTotal | zi/zargs/arguments.hpp:62-65 | the name comparison is total: two distinct names are ordered one way or the other |
| HelpOutput.LessTransitive | zi/zargs/arguments.hpp:62-65 | the name comparison is transitive |
| HelpOutput.PaddedColumn | zi/zargs/arguments.hpp:71-73 | the padded column starts with its text, is filled with spaces up to width 29 and is never truncated; what follows starts right after it |
| HelpOutput.PiecesOfExplode | zi/zargs/arguments.hpp:75-80 | printing each `\n`-separated description piece followed by `"; "` equals the description with every line break replaced by `"; "` plus one final `"; "` |
| HelpOutput.HelpLineLayout | zi/zargs/arguments.hpp:67-87 | a help line begins with `"  --" + name`, has spaces up to column 29 (or none when the name is longer), then the description pieces each followed by `"; "`, then `default=<default> (<lower-cased type>)` and a newline |
| Registry.Arguments.constructor | zi/zargs/arguments.hpp:48-50 | a new registry has no handlers and an empty file name |
| Registry.Arguments.RegisterHandler | zi/zargs/arguments.hpp:53-56 | the handler is appended at the end; earlier handlers and their order are unchanged; no deduplication |
| Registry.Arguments.ShowHelp | zi/zargs/arguments.hpp:58-97 | the text is the banner with the file name, one line per handler from a name-sorted copy, then the notes; the stored handlers are not modified |
| Registry.Arguments.Filename | zi/zargs/arguments.hpp:158-161 | returns the file name captured by the last parse pass |
| Registry.Arguments.TokenQueue | zi/zargs/arguments.hpp:103-107 | the queue is `argv[1..argc)` in order |
| Registry.Arguments.FindHelpFlag | zi/zargs/arguments.hpp:109-118 | true exactly when some token is `-h`, `--help` or `-help` |
| Registry.Arguments.OfferFront | zi/zargs/arguments.hpp:127-143 | offers the queue to the handlers in registration order and reports what `OfferFrom` specifies: the first handler that does not decline, none after it consulted |
| Registry.Arguments.ParseArguments | zi/zargs/arguments.hpp:99-155 | the file name becomes `argv[0]`. With a help flag: the help outcome with the help text, and handlers, `argc` and `argv` untouched. Otherwise the handlers end as the parse loop leaves them, the outcome is the error if a handler raised and Ok otherwise, and `argc`/`argv` are as `ConsumeTokens` states |
| Registry.Arguments.ConsumeTokens | zi/zargs/arguments.hpp:120-152 | with `remove_args`: `argc` is 1 plus the number of unclaimed tokens and at most the old `argc`, `argv[0]` is unchanged, `argv[1..argc)` are exactly the unclaimed tokens in order, and the slots after them are untouched. Without it: `argc` and `argv` are unchanged. The handlers and the outcome are those of the parse loop |
| Examples.CountVerboseExtra | zi/zargs/arguments.hpp:124-152 | with handlers `count` and `verbose`, the tokens `--count=5 --verbose extra` set count to 5 and verbose to true, and leave only `extra` |
| Examples.HelpListsCountFirst | zi/zargs/arguments.hpp:61-65 | `count` is listed before `verbose` even when `verbose` was registered first |

## Left out

- The concrete handler types and their matching and conversion rules (`--k=v`, `-k v`, `-nok`, quoted values) are in `zi/zargs/parser.hpp` and `zi/zargs/matcher.hpp`. Those files are not part of this model. A handler's `parse` is abstract, constrained only by the frame its type states, and its value is kept as text.
- A handler's `parse` is a function of its current value and the queue. Effects beyond its own value and the queue (globals, I/O) are not modelled.
- Only a `zi::exception` thrown by a handler is caught (zi/zargs/arguments.hpp:138-142) and becomes the `Error` outcome. Any other exception escapes `parse_arguments` with no `Error:` line and no `exit(1)`, leaving `argc`/`argv` partly rewritten when `remove_args` is set. The model's `Raised` reply stands only for `zi::exception`; it has no reply for other exceptions, so that escape path is not modelled.
- The registry holds `handler*` pointers (zi/zargs/arguments.hpp:49) to option objects the program owns, and a claim changes the option object itself. The model keeps `Handler` values in `handlers`, so aliasing is not captured: the same option registered twice shares one state in the source but has two independent values here, and the program's own option objects are not updated, only the registry's copies.
- A handler that returns false is assumed to leave the queue untouched, as the handler protocol requires. The model has no way to express a handler that breaks this.
- Output to `std::cerr` and the stream's `width`/`std::left` state are not modelled. The help text is returned inside the `Help` outcome. The `"Error: " + message` line is not modelled; the `Error` outcome carries the handler's message.
- `exit(0)` and `exit(1)` are not modelled; they become the `Help` and `Error` outcomes. The `return false` after `exit(0)` is unreachable and is not modelled.
- The singleton machinery (`enable_singleton_of_this`, `instance()`) and the free functions at `zi/zargs/arguments.hpp:170-178` are left out. The registry is an explicit `Arguments` object.
- The `new char[]`/`strcpy` copies written into `argv` are not modelled; `argv` is an array of strings.
- `argc` is an unbounded integer. A C `int` overflow cannot occur here, because `argc` never exceeds its initial value.
- Locale behaviour of Boost's `to_lower_copy` and of `::tolower` is not modelled. Lower-casing is ASCII only, as in the classic "C" locale.
- HelpOutput.SortByName: `std::sort` is not stable, so the source leaves the order of handlers with equal names unspecified. The model picks registration order for them.
- Registry.Arguments.ParseArguments: the source reads `argv[0]` even when `argc` is 0, which is undefined behaviour. The model requires `argc >= 1`.
