# Board controller and post display, modelled in Dafny

This project models the decision logic of a Spring MVC bulletin board. The
board lists posts, shows one post, creates posts, and edits or deletes a post
once its password has been checked.

Two parts of the board are modelled:

- **Display normalisation** (`ViewCommand.execute`). The row the DAO returns
  for a post has every `"\r\n"` in its contents replaced by `"<br/>"`. This uses
  Java's `String.replace` semantics: left to right, with no overlapping matches.
  The row then goes into the Spring model as `viewRow`, next to the request's
  `nowPage`. The replacement is the pure function `Crlf.ReplaceCrlf`.
  `Crlf` also proves its properties:
  - no `"\r\n"` is left afterwards;
  - text without one is unchanged;
  - applying it twice is the same as applying it once;
  - matching is left to right;
  - the length grows by 3 for each pair;
  - the reverse rewrite `Crlf.RestoreCrlf` gives back the original text when it contains no `'<'`.

  `Commands.ExecuteView` is the imperative command. It changes the row's
  `contents` in place, through the row's setter, and adds the two attributes
  to the model object.
- **Dispatch and the password gate** (`BbsController`). Each handler:
  - seeds the model;
  - may assign a new command to the controller's `command` field and run it;
  - returns a view name or a redirect.

  `PasswordAction` decides from the DAO's match count `rowExist` and the
  `mode` parameter. Its postcondition ties the returned view and the new state
  to the pure decision `Controller.Gate`. It also states the gate invariant
  for a request handled on its own: a command runs only when `rowExist > 0`.
  Concurrent requests share the controller's `command` field, and the gate
  invariant fails for them (see Findings below).

Modules, one per file:

- `Crlf` (crlf.dfy): the replacement, a reference occurrence count, the reverse rewrite and the lemmas.
- `Mvc` (mvc.dfy): the framework values. These are:
  - `Option`, standing for Java's null;
  - `Request`, holding only the request parameters;
  - the attribute `Value`;
  - the `Model` class, Spring's attribute bag updated in place;
  - the `BbsPost` class, the `SpringBbsDTO` row bean.
- `Commands` (commands.dfy): the command classes, as labels, and `ExecuteView`.
- `Controller` (bbs_controller.dfy): the `BbsController` class and the password decision.

Collaborators outside this model are inputs:

- The DAO's match count for `dao.password(idx, pass)` is the `rowExist` argument.
- The row `dao.view(idx)` returns is the `row` argument.
- `ListCommand`, `WriteActionCommand`, `EditCommand`, `EditActionCommand` and
  `DeleteActionCommand` are not part of this model. A run of one of them is
  recorded in the controller's `executed` trace, together with the model
  attributes it was given. The attributes it adds are the handler's `writes`
  argument.

Facts about the code that the model keeps:

- `ViewCommand` itself neither increments the hit count nor reports a missing row. Whatever the DAO does there is not part of this model.
- On a rejected password, `passwordAction` adds only the message and `idx` to the model.
- `password.do` copies only `idx` into the model.

## Model

| member | source | states |
|---|---|---|
| `Crlf.ReplaceCrlf` | src/main/java/springboard/command/ViewCommand.java:29 | the model of `replace("\r\n", "<br/>")`; its body is Java's left-to-right scan. Its own contract says only that the text never gets shorter and that empty text stays empty; its properties are the lemma rows below |
| `Crlf.NoCrlfAfterReplace` | src/main/java/springboard/command/ViewCommand.java:29 | after `replace("\r\n", "<br/>")` the text contains no `"\r\n"` at any index |
| `Crlf.ReplaceWithoutCrlf` | src/main/java/springboard/command/ViewCommand.java:29 | text with no `"\r\n"`, including the empty string, is returned unchanged |
| `Crlf.ReplaceFixedPoint` | src/main/java/springboard/command/ViewCommand.java:29 | the replacement leaves the text unchanged exactly when it contains no `"\r\n"` (both directions) |
| `Crlf.ReplaceIdempotent` | src/main/java/springboard/command/ViewCommand.java:29 | replacing in the already normalised text changes nothing |
| `Crlf.ReplaceFirstMatch` | src/main/java/springboard/command/ViewCommand.java:29 | left-to-right, non-overlapping matching: the text before the first occurrence is copied unchanged, that occurrence becomes `"<br/>"`, and matching resumes after it |
| `Crlf.ReplaceLength` | src/main/java/springboard/command/ViewCommand.java:29 | the output is 3 characters longer than the input for every `"\r\n"` occurrence, counted independently over all positions |
| `Crlf.OccurrencesZero` | src/main/java/springboard/command/ViewCommand.java:29 | that independent count is zero exactly when the text has no `"\r\n"` |
| `Crlf.RestoreAfterReplace` | src/main/java/springboard/command/ViewCommand.java:29 | turning `"<br/>"` back into `"\r\n"` recovers the stored contents, for contents with no `'<'` |
| `Crlf.ExampleCrCrLf` | src/main/java/springboard/command/ViewCommand.java:29 | `"\r\r\n"` becomes `"\r<br/>"`: a lone carriage return is kept |
| `Crlf.ExampleLoneLf` | src/main/java/springboard/command/ViewCommand.java:29 | `"a\nb"` is unchanged: a lone line feed is kept |
| `Crlf.ExampleOnePair` | src/main/java/springboard/command/ViewCommand.java:29 | `"a\r\nb"` is shown as `"a<br/>b"` |
| `Mvc.BbsPost.SetContents` | src/main/java/springboard/command/ViewCommand.java:29 | the row's setter changes only `contents`, to the given text |
| `Commands.ExecuteView` | src/main/java/springboard/command/ViewCommand.java:15-33 | the DAO's row gets its contents replaced in place and no other field changes (only the row's `contents` is in the frame); the contents then hold no `"\r\n"`; the model gains exactly `viewRow` (the row) and `nowPage` (the request parameter, or null), and nothing else in it changes |
| `Controller.Gate` | src/main/java/springboard/controller/BbsController.java:141-176 | the password decision: rejected exactly when `rowExist <= 0`; edit exactly on a match with mode `"edit"`; delete exactly on a match with mode `"delete"`; no outcome on a match with any other mode; a null mode on a match is excluded because `mode.equals` would throw |
| `Controller.GateView` | src/main/java/springboard/controller/BbsController.java:132-178 | the values `passwordAction` assigns to `modePage` (lines 132, 149, 164, 174): the password page exactly on a rejection, a redirect exactly on a delete, and null exactly when a match has any other mode |
| `Controller.GateCommand` | src/main/java/springboard/controller/BbsController.java:161-169 | the command each branch creates (lines 161 and 169): a command exists exactly when the page returned is neither the password page nor null, and it is never the list or view command |
| `Controller.GateGuardsCommands` | src/main/java/springboard/controller/BbsController.java:141-176 | the gate invariant, for one request: the decision yields `EditCommand` or `DeleteActionCommand` only when `rowExist > 0`, and each exactly for its own mode |
| `Controller.BbsController.constructor` | src/main/java/springboard/controller/BbsController.java:62 | the controller starts with no command and nothing executed |
| `Controller.BbsController.Assign` | src/main/java/springboard/controller/BbsController.java:112 | `command = new C()`: the shared field holds a command of class C; nothing else changes |
| `Controller.BbsController.ExecuteCurrent` | src/main/java/springboard/controller/BbsController.java:113 | `command.execute(model)` reads the field when it is called: the invocation recorded is of the command the field then holds, which is any command other than ViewCommand (see `ExecuteCurrentView`), with the model as it was on entry, and the model gains the command's `writes` |
| `Controller.BbsController.ExecuteCurrentView` | src/main/java/springboard/controller/BbsController.java:112-113 | `command.execute(model)` when the field holds a ViewCommand: one ViewCommand invocation is recorded with the model as it was on entry, then the row is normalised and `viewRow` and `nowPage` are added |
| `Controller.BbsController.Run` | src/main/java/springboard/controller/BbsController.java:73-74 | `command = new C(); command.execute(model);` with nothing in between (also lines 99-100, 161-162, 169-170, 191-192): the field is set to C, exactly one invocation of C is appended with the model as it was on entry, and the model gains `writes` |
| `Controller.SharedFieldInterleaving` | src/main/java/springboard/controller/BbsController.java:111-113 | as written, with the singleton's shared `command` field: a `passwordAction` delete assigning the field (line 169) between a `view.do` request's assignment and its `execute` makes the view request run `DeleteActionCommand` on its own model, whose `req` is the view request |
| `Controller.RequestScopedInterleaving` | src/main/java/springboard/controller/BbsController.java:111-113 | with the command held per request, the same interleaving leaves the view request running `ViewCommand` on its own model, and the row it shows is the normalised contents |
| `Controller.BbsController.List` | src/main/java/springboard/controller/BbsController.java:64-77 | `req` is put into the model, `ListCommand` runs once with that model, and the result is `"07Board/list"` |
| `Controller.BbsController.Write` | src/main/java/springboard/controller/BbsController.java:79-83 | returns `"07Board/write"`; no command runs and nothing changes |
| `Controller.BbsController.WriteAction` | src/main/java/springboard/controller/BbsController.java:85-104 | `WriteActionCommand` runs exactly once, with `req` and `springBbsDTO` in the model, and the result is `"redirect:list.do?nowPage=1"` |
| `Controller.BbsController.View` | src/main/java/springboard/controller/BbsController.java:106-116 | `ViewCommand` runs once with `req` in the model; the row is normalised; the model ends with `req`, `viewRow` and `nowPage` added; the result is `"07Board/view"` |
| `Controller.BbsController.Password` | src/main/java/springboard/controller/BbsController.java:118-126 | returns `"07Board/password"`; the model gains only `idx`, copied from the request or null |
| `Controller.BbsController.PasswordAction` | src/main/java/springboard/controller/BbsController.java:128-179 | the view is the one `Gate` selects. No match: `isCorrMsg` and `idx` are added and nothing runs. Match with `"edit"`: `EditCommand` runs once with `req` in the model and the result is `"07Board/edit"`. Match with `"delete"`: `DeleteActionCommand` runs once, then `nowPage` is copied, and the result is `"redirect:list.do"`. Any other mode: null, with nothing run and nothing changed. For a request handled on its own, a command runs only if `rowExist > 0`, and the trace gains exactly the command `GateCommand` names for the decision, or nothing when it names none |
| `Controller.BbsController.EditAction` | src/main/java/springboard/controller/BbsController.java:181-203 | `EditActionCommand` runs once with `req` and `springBbsDTO` in the model; afterwards `idx` and `nowPage` are stored, overriding anything the command wrote under those names; the result is `"redirect:view.do"` |

## Findings

| source | as written | input that shows it | evidently intended | confidence | as-written member | corrected member |
|---|---|---|---|---|---|---|
| src/main/java/springboard/controller/BbsController.java:62 | `command` is a field of the singleton controller; every handler assigns it and then calls `command.execute(model)` on it | request B `view.do?idx=7` runs line 112; request A `passwordAction.do` with a matching password and `mode=delete` runs line 169; B runs line 113 | each request runs the command it created, so `DeleteActionCommand` runs only behind a matching password | not executed | `Controller.SharedFieldInterleaving` | `Controller.RequestScopedInterleaving` |

The handlers in this model each stand for one request handled on its own, as
in the corrected design. Their contracts, the gate invariant of
`PasswordAction` included, hold for that design.

## Left out

- `setTemplate` and the static `JdbcTemplateConst.template` wiring (BbsController.java:49-56): dependency-injection plumbing with no decision in it.
- The `System.out.println` logging (BbsController.java:52, 154).
- `JDBCTemplateDAO` is not part of this model. It runs SQL against a database.
  - `dao.password(idx, pass)` becomes the integer argument `rowExist`.
  - `dao.view(idx)` becomes the `row` argument, assumed to be an object. The model does not relate `row` to the `idx` parameter.
- The DTO that `ViewCommand` creates at line 27 is discarded at once, so it is not modelled.
- `ListCommand`, `WriteActionCommand`, `EditCommand`, `EditActionCommand`, `DeleteActionCommand` are not part of this model.
  - Each run is recorded only as a trace entry.
  - Their effects on the database, pagination and hit counts are not modelled.
  - The attributes they add to the model are an input (`writes`), not computed.
- `SpringBbsDTO` is not part of this model. The fields of `Mvc.BbsPost` are the board's row attributes: id, title, writer, contents, password, registration time and hit count. `ViewCommand` touches only `contents`.
- Spring's `Model` becomes a class holding a string-keyed map. `HttpServletRequest` becomes its parameter map. `@RequestMapping` routing and the resolution of `redirect:` strings are framework behaviour and are not modelled.
- The JSP views and HTML rendering are not modelled.
- Java's null row and null contents (a `NullPointerException` in the source) are not modelled: `row` is an object and `contents` a string.
- Commands.ExecuteView: requires that the model holds a request under `"req"`. Without one the source fails: a missing `req` makes line 22 throw a NullPointerException, and a `req` of another type makes the cast at line 19 throw a ClassCastException. Every caller, `View` here, puts it there first.
- Controller.BbsController.PasswordAction: requires, like `Controller.Gate`, that a request with no `mode` parameter and a password match is excluded. There the source throws a `NullPointerException` from `mode.equals`.
- Concurrency: each handler is modelled as one request handled on its own. The shared `command` field lets a concurrent request's assignment fall between a handler's assignment and its `execute`. The model shows this only for the single interleaving in `Controller.SharedFieldInterleaving`; it does not model threads or all interleavings.
