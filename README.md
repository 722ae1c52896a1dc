# Command-string and type handlers of python-telegram-bot, in Dafny

This project models two leaf handlers of the `telegram.ext` update-dispatch
framework and proves what their matching rules promise.

- `StringCommandHandler` handles strings put on the update queue by hand. An
  update matches when it is a `str` that starts with `/` and whose first word
  after the slash equals the handler's `command`. Words are split on single
  spaces, as Python's `str.split(' ')` does. The match result is the list of
  the remaining words. `collect_additional_context` copies that list into
  `context.args`.
- `TypeHandler` matches updates by class. With `strict` off it uses
  `isinstance`, which admits subclasses. With `strict` on it uses
  `type(update) is type`, which is exact identity.

Files:

- `wrappers.dfy`: `Option`, the "no match" / "match with payload" result.
- `updates.dfy`: an update is either a `str` (`Text`) or another object
  (`Object`) whose class is an abstract class identity. `TypeOf` is
  `type(update)`.
- `space_split.dfy`: `SplitOnSpace` models `s.split(' ')` and `JoinOnSpace`
  models `' '.join(ts)`. Round trips are proved both ways.
- `context.dfy`: the callback context, with its `args` slot and the
  attributes user code may add.
- `string_command_handler.dfy`: `StringCommandHandler` as a class. Its
  `command` is a field, as the Python attribute is. `CheckUpdate` is a
  function that only reads the handler, so a call can never change `command`.
  `CollectAdditionalContext` is a method that writes `context.args` and
  nothing else.
- `type_handler.dfy`: `TypeHandler` as a value, since nothing changes it after
  construction. The source's `type` attribute is named `target`, because
  `type` is a Dafny keyword. The subclass relation is a parameter `sub`.
  Lemmas that need it to be reflexive or transitive require that.

## Model

| member | source | states |
|---|---|---|
| `SpaceSplit.SplitOnSpace` | telegram/ext/_stringcommandhandler.py:89 | `s.split(' ')` always returns at least one token, and no token contains a space |
| `SpaceSplit.JoinSplit` | telegram/ext/_stringcommandhandler.py:89 | joining the tokens of a split with single spaces rebuilds the original string |
| `SpaceSplit.SplitJoin` | telegram/ext/_stringcommandhandler.py:89 | splitting the join of a non-empty list of space-free tokens gives back that list |
| `SpaceSplit.SplitNoSpace` | telegram/ext/_stringcommandhandler.py:89 | a string without a space splits to itself alone; in particular `"".split(' ') == [""]` |
| `SpaceSplit.SplitWordSpace` | telegram/ext/_stringcommandhandler.py:89 | a space-free word followed by a space splits off as the first token, and the rest splits independently |
| `SpaceSplit.JoinHeadTail` | telegram/ext/_stringcommandhandler.py:89-91 | a non-empty join is its first token followed by every other token with one space in front |
| `SpaceSplit.SplitCount` | telegram/ext/_stringcommandhandler.py:36 | splitting on single spaces gives exactly one more token than the string has spaces, so a run of spaces yields empty tokens |
| `Updates.TypeOf` | telegram/ext/_typehandler.py:89 | `type(update)` is the class `str` exactly for string updates |
| `StringCommandHandlers.StringCommandHandler.constructor` | telegram/ext/_stringcommandhandler.py:69-76 | the constructor stores `command` unchanged |
| `StringCommandHandlers.StringCommandHandler.CheckUpdate` | telegram/ext/_stringcommandhandler.py:78-92 | a non-string update gives `None`; a string that is empty or does not start with `/` gives `None`; a match implies that the command and every returned argument contain no space |
| `StringCommandHandlers.StringCommandHandler.MatchIff` | telegram/ext/_stringcommandhandler.py:88-91 | a string update gives `Some(args)` if and only if it equals `/`, then the command, then each argument preceded by one space, where neither the command nor any argument contains a space (case-sensitive and exact, both directions) |
| `StringCommandHandlers.StringCommandHandler.RoundTrip` | telegram/ext/_stringcommandhandler.py:88-91 | when `check_update` returns `Some(args)`, the update is `"/" + command` followed by `" " + a` for each `a` in `args` |
| `StringCommandHandlers.StringCommandHandler.MatchesIffPrefix` | telegram/ext/_stringcommandhandler.py:88-92 | a string update matches if and only if the command contains no space and the string is `"/" + command` or starts with `"/" + command + " "` |
| `StringCommandHandlers.StringCommandHandler.MatchHasPrefix` | telegram/ext/_stringcommandhandler.py:88-91 | a matching string is `"/" + command`, alone or followed by a space |
| `StringCommandHandlers.StringCommandHandler.PrefixMatches` | telegram/ext/_stringcommandhandler.py:88-91 | a string that starts with `"/" + command + " "` matches when the command contains no space |
| `StringCommandHandlers.StringCommandHandler.CommandWithSpaceNeverMatches` | telegram/ext/_stringcommandhandler.py:89-90 | a command that contains a space matches no update |
| `StringCommandHandlers.StringCommandHandler.CollectAdditionalContext` | telegram/ext/_stringcommandhandler.py:94-104 | `context.args` becomes exactly the check result, overwriting any earlier value; the user attributes are unchanged and nothing else may be modified |
| `StringCommandHandlers.ExampleTwoArgs` | telegram/ext/_stringcommandhandler.py:88-91 | with command `"start"`, `"/start a b"` gives `["a", "b"]` |
| `StringCommandHandlers.ExampleNoArgs` | telegram/ext/_stringcommandhandler.py:88-91 | with command `"start"`, `"/start"` gives the empty list, which is a match and not `None` |
| `StringCommandHandlers.ExampleDoubleSpace` | telegram/ext/_stringcommandhandler.py:88-91 | with command `"start"`, `"/start a  b"` (two spaces) gives `["a", "", "b"]` |
| `StringCommandHandlers.ExampleOtherCommand` | telegram/ext/_stringcommandhandler.py:88-92 | with command `"start"`, `"/stop a"` gives `None` |
| `TypeHandlers.NewTypeHandler` | telegram/ext/_typehandler.py:66-75 | the constructor stores the target type and `strict` unchanged |
| `TypeHandlers.DefaultIsNotStrict` | telegram/ext/_typehandler.py:70 | when `strict` is not given, it is `false` |
| `TypeHandlers.CheckUpdate` | telegram/ext/_typehandler.py:77-89 | a match always means the update's class is the target or a subclass of it |
| `TypeHandlers.LooseIsInstance` | telegram/ext/_typehandler.py:87-88 | with `strict` off, the handler matches exactly the instances of the target, in the `isinstance` sense |
| `TypeHandlers.StrictIsIdentity` | telegram/ext/_typehandler.py:89 | with `strict` on, the handler matches exactly the updates whose class is the target |
| `TypeHandlers.StrictImpliesLoose` | telegram/ext/_typehandler.py:87-89 | when the subclass relation is reflexive, a strict match is also a non-strict match for the same update and target |
| `TypeHandlers.ProperSubclassOnlyLoose` | telegram/ext/_typehandler.py:87-89 | an instance of a proper subclass of the target matches with `strict` off and does not match with `strict` on |
| `TypeHandlers.ModesAgreeIff` | telegram/ext/_typehandler.py:87-89 | the two modes give the same answer for an update exactly when its class is not a proper subclass of the target |
| `TypeHandlers.WideningKeepsMatches` | telegram/ext/_typehandler.py:87-88 | when the subclass relation is a preorder, any match is kept by a non-strict handler whose target is a superclass of the original target |
| `TypeHandlers.StrictStrMatchesText` | telegram/ext/_typehandler.py:89 | a strict handler for `str` matches exactly the string updates |

`TypeHandler.check_update` returns a boolean and cannot change `type` or
`strict`, because the handler is a value. `StringCommandHandler.CheckUpdate`
is a function that only reads the handler, so `command` after a call is
`command` before it.

## Left out

- The `Handler` base class, the `callback` and the `block` argument with its
  `DEFAULT_TRUE` default. The constructors pass them to `super().__init__`,
  and `telegram/ext/_handler.py` is not part of this model.
- The `dispatcher` argument of `collect_additional_context`. The method does
  not use it.
- The dispatcher, handler groups, `process_update`, blocking versus
  non-blocking callbacks, and the `ConversationHandler` return values. Their
  code is not part of this model.
- The user callbacks. They are foreign code.
- Subclasses of `str`. A string update is modelled as an exact `str`, so the
  `isinstance(update, str)` check is `update.Text?`.
- Python's real class machinery (MRO, ABCs, `__instancecheck__`). The subclass
  relation is an abstract parameter. Only reflexivity and transitivity are
  assumed, and only where a lemma requires them.
- `CallbackContext` beyond `args` and user-added attributes. Its other fields
  are not part of this model.
