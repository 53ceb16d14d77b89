# Gemini console command: conversation model

This project models the console command `app:gemini-command` of a small Laravel
application that talks to Google's Gemini model on Vertex AI. The command runs an
endless loop. Each round of the loop does the following:

- Show the conversation so far as a table of (role, message) rows.
- Read a line of text.
- Ask whether to upload files and, if the answer is yes, let the user pick paths from
  a directory listing.
- Push a user turn onto the history. The turn holds the text, then one base64 blob
  per file.
- Send the whole history, with a fixed model id and four fixed safety settings.
- Push the model's reply onto the history, but only when its finish reason counts as
  successful.

The picked paths are never cleared. When the user declines the upload prompt, the
command attaches the files picked at the most recent earlier upload again, or none if
there was no earlier upload.

The Dafny modules are:

- `Content` (content.dfy): roles, text and blob parts, turns, attachments, the safety
  settings, the request, and how a user turn is built.
- `Display` (display.dfy): the history table, with the role value and the text of the
  first text part or `"N/A"`.
- `FilePaths` (file_paths.dfy): the file picker's option list. For each listed line,
  every `"./"` is replaced with `"/"` and the typed input is put in front.
- `Conversation` (conversation.dfy):
  - `Next` is one round of the loop as a pure transition on
    `State(history, lastFiles)`.
  - `Replay` is a finite run of rounds.
  - `Controller` is a class that holds `history` and `lastFiles` as fields. Its `Step`
    and `Run` methods update them in place, as the command updates its collection and
    its `$fileFqPaths` variable. `Step`'s contract is `Next`; `Run`'s is `Replay`.

Modelling choices, and behaviour of the code worth stating outright:

- The sticky selection is kept as paths, not as file contents. The command reads the
  files again in every round (`File::mimeType`, `File::get`). So each round takes a
  function `read` that gives a file's MIME type and base64 contents during that round.
- The platform is a function `generate` from the request to a reply. A reply either
  carries content and a success flag (the finish reason's `consideredSuccessful()`), or
  is a raised failure: `generateContent` may throw, and the exception leaves `handle()`.
  Nothing in the command inspects it, so the model treats the failure as opaque; the
  four constructors of `Failure` are only labels.
- On a raised failure the user turn has already been pushed: the push at
  app/Console/Commands/GeminiCommand.php:73 is evaluated as an argument before
  `generateContent` is called at :70. The collection is local to `handle()`, so it is
  lost when the exception propagates.
- The history grows by two on success (user turn and reply, :73 and :102-103) and by
  one on rejection (:97-100). The user turn stays in the history after a rejection.
- The library's `Role` enumeration is not part of this model. Its values are taken to
  be `"user"` and `"model"`, the roles of the Gemini API.
- `HarmCategory` lists only the four categories the command uses. `SafetyThreshold`
  lists the API's four blocking levels.
- `Str::replace` is PHP's `str_replace`. It scans left to right, matches never
  overlap, the inserted text is not scanned again, and an empty search string changes
  nothing.

## Model

| member | source | states |
|---|---|---|
| `Content.BlobParts` | app/Console/Commands/GeminiCommand.php:78-82 | one blob part per file, same count, the i-th part carrying the i-th file's MIME type and base64 data |
| `Content.UserTurn` | app/Console/Commands/GeminiCommand.php:74-83 | the user's turn has role User, the typed text as its first part, then exactly one blob per file in selection order |
| `Content.RoleValue` | app/Console/Commands/GeminiCommand.php:56 | the value shown for a role is "user" exactly for the user's turns and "model" exactly for the model's |
| `Content.BuildRequest` | app/Console/Commands/GeminiCommand.php:70-93 | the request carries the whole conversation, is addressed to the fixed model, and has four settings covering every harm category, each BlockOnlyHigh |
| `Content.SafetyPolicyOnePerCategory` | app/Console/Commands/GeminiCommand.php:87-92 | four settings, each BlockOnlyHigh, every harm category covered and no category twice |
| `Display.FirstText` | app/Console/Commands/GeminiCommand.php:57 | no result exactly when no part is a text part; otherwise the text of the first text part |
| `Display.DisplayRow` | app/Console/Commands/GeminiCommand.php:54-58 | a row holds the role's value and the first text part's text, or "N/A" when the turn has no text part |
| `Display.DisplayTable` | app/Console/Commands/GeminiCommand.php:52-59 | one row per history turn, in history order, each the row of that turn |
| `Display.DisplayUserTurn` | app/Console/Commands/GeminiCommand.php:54-58 | a turn the user typed is shown as ("user", the typed text), whatever files it carries |
| `Display.DisplayTableAppend` | app/Console/Commands/GeminiCommand.php:52-59 | appending turns to the history appends their rows and leaves the earlier rows as they were |
| `FilePaths.ReplaceAll` | app/Console/Commands/GeminiCommand.php:129 | an empty search string changes nothing; a replacement no longer than the search string never lengthens the subject, and one of equal length keeps its length |
| `FilePaths.RewritePath` | app/Console/Commands/GeminiCommand.php:129-131 | the option starts with the typed input and is at most the length of the input plus the line |
| `FilePaths.RewritePaths` | app/Console/Commands/GeminiCommand.php:128-131 | one option per listed line, same order and count, each the input followed by the line with "./" replaced |
| `FilePaths.ReplaceAllWithoutMatch` | app/Console/Commands/GeminiCommand.php:129 | a line in which the search string does not occur is left unchanged |
| `FilePaths.DotSlashOnlyDropsDots` | app/Console/Commands/GeminiCommand.php:129 | rewriting "./" to "/" never lengthens a line and removes nothing but dots |
| `FilePaths.FindLinesRewrite` | app/Console/Commands/GeminiCommand.php:113-131 | for a name in which "./" does not occur (always so for the names `find . -maxdepth 1` prints, which hold no "/"), the listing line "./name" becomes input + "/" + name; the line "." becomes input + "."; an empty line becomes the input |
| `FilePaths.DotDotSlashRewrite` | app/Console/Commands/GeminiCommand.php:129 | "../" becomes "./" because the replaced text is not scanned again, so the rewrite is not idempotent |
| `Conversation.Selection` | app/Console/Commands/GeminiCommand.php:64-68 | the paths attached in a round are the ones just picked when the upload was accepted, and otherwise the ones remembered from before (none at the start, the `?? []` at :78) |
| `Conversation.Next` | app/Console/Commands/GeminiCommand.php:52-103 | one round sends to the fixed model with the fixed safety settings, keeps the earlier history as a prefix, and grows it by 2 when the reply is committed and by 1 otherwise |
| `Conversation.Replay` | app/Console/Commands/GeminiCommand.php:51-104 | a finite run has at most one exchange per input and at least one when there is an input, and the history gains at least one turn per exchange |
| `Conversation.ReadAll` | app/Console/Commands/GeminiCommand.php:78-82 | the files are read one per path, in path order |
| `Conversation.StepRequest` | app/Console/Commands/GeminiCommand.php:52-93 | the request names the fixed model, carries the fixed safety settings, and holds the earlier history followed by exactly one new user turn; the table shown is the earlier history |
| `Conversation.StepFiles` | app/Console/Commands/GeminiCommand.php:64-68 | accepting the upload prompt replaces the remembered selection, declining keeps it, and the new user turn carries the files of the selection now remembered |
| `Conversation.StepHistory` | app/Console/Commands/GeminiCommand.php:73-103 | the history is append-only and holds the request's contents; it grows by 2 with the reply last on success, by 1 on rejection; a raised failure ends the round with the user turn pushed |
| `Conversation.ReplayShape` | app/Console/Commands/GeminiCommand.php:51-104 | only the last exchange of a run can be aborted, a run with fewer exchanges than inputs ends aborted, and the history grows by 2 per committed exchange and by 1 per other exchange |
| `Conversation.ReplayEvents` | app/Console/Commands/GeminiCommand.php:51-104 | exchange k of a run is the outcome of input k: committed exactly when round k's call answered successfully, rejected exactly when it answered unsuccessfully, aborted exactly when it raised |
| `Conversation.ReplayAppendOnly` | app/Console/Commands/GeminiCommand.php:73-103 | across a run, the starting history and every request's contents are prefixes of the final history |
| `Conversation.ReplayFixedSettings` | app/Console/Commands/GeminiCommand.php:70-92 | every request of a run names the fixed model and carries the fixed safety settings |
| `Conversation.ReplaySendsFilesAt` | app/Console/Commands/GeminiCommand.php:64-83 | round k of a run sends the text typed in round k with the files of the selection in force in round k, read in round k |
| `Conversation.FilesAtLatest` | app/Console/Commands/GeminiCommand.php:64-68 | the selection in force in round k is that of the latest round up to k that accepted the upload, or the initial one when none did |
| `Conversation.ReplayStickyFiles` | app/Console/Commands/GeminiCommand.php:64-83 | the files attached in round k are those picked at the latest upload up to k, or the starting selection when there was none |
| `Conversation.ScenarioCommitted` | app/Console/Commands/GeminiCommand.php:97-103 | "Hello" followed by a successful "Hi there" leaves both turns in the history, shown as ("user","Hello"), ("model","Hi there") |
| `Conversation.ScenarioRejected` | app/Console/Commands/GeminiCommand.php:97-100 | a rejected "bad prompt" leaves exactly the user's turn in the history |
| `Conversation.Controller.constructor` | app/Console/Commands/GeminiCommand.php:49 | the command starts with an empty history and no selected file, which is the pure model's `Initial` state |
| `Conversation.Controller.Step` | app/Console/Commands/GeminiCommand.php:51-104 | one round updates the history and the remembered selection in place exactly as `Next` does, and returns what was shown and sent and how the round ended |
| `Conversation.Controller.Run` | app/Console/Commands/GeminiCommand.php:51-104 | a loop over finitely many inputs that stops at the first raised failure; its final fields and exchanges are those of `Replay` |

## Left out

- app/Providers/AppServiceProvider.php is not part of this model. It only wires the
  container: it builds the OAuth2 service from the external Gemini library, caches the
  token with Laravel's cache for an hour, and sets a 300-second Guzzle timeout. The
  library itself is not part of this model, so the token issuance, the cache and the
  timeout are absent.
- The interactive prompts (`text`, `confirm`, `multisearch`) are modelled only by what
  they return. The rendering of the table is absent, and so is the error message
  printed on rejection. The model returns the rows and the round's outcome instead.
- The multi-search picker lets the user choose among the rewritten options. The model
  takes the chosen paths as given and does not tie them to the option list.
- The directory listing (`Process::run('find . -maxdepth 1')`), the `is_dir` test and
  the split on line ends are left out. Only the rewrite of the already split lines is
  modelled.
- File reading and base64 encoding are the `read` parameter. Failures while reading a
  file, or while prompting, are not modelled; only the platform's failures are.
- The remote call and `FinishReason::consideredSuccessful()` belong to the external
  library. They are the `generate` parameter and its success flag.
- The endless `while (true)` becomes `Run` over a finite sequence of inputs.
- Aliasing is not modelled. The request object holds the command's own collection,
  which the later push of the reply also changes. The model takes the request's
  contents as a snapshot at send time; that is everything the remote call can observe.
