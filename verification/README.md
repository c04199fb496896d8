# Verified models of four cores of MaaAssistantArknights

This project models four self-contained parts of MaaAssistantArknights in Dafny and proves what
each is for, over every input, every run or every sequence of calls.

| files | part |
|---|---|
| `CalcTrees`, `CalcSyntax`, `CalcParser`, `CalcPrinter`, `CalcLaws` | the operator-precedence evaluator `calculator::ExpressionParser` |
| `JsonStrings`, `JsonTokens`, `JsonNumbers`, `JsonSyntax`, `JsonMeaning`, `JsonParser`, `JsonPrinter`, `JsonFormat`, `JsonLayout` | the JSON parser, the two printers and the string layer of meojson |
| `AssistantSystem`, `AssistantQueue`, `AssistantMessages`, `AssistantReports`, `AssistantFinished`, `AssistantWake`, `AssistantStarts`, `AssistantThreads` | the task queue of `Assistant`: client calls against the worker thread |
| `ControllerLf`, `ControllerScreencap`, `ControllerSwipe` | line-feed repair, the adaptive screencap and the swipe path of `Controller` |

`Options` and `Texts` hold the optional value and the positions of a text. `dafny verify dfyconfig.toml`
checks everything.

**Evaluator.** `ExpressionParser` keeps the source's fields: the text, the index and one stack shared by
all nested parentheses, a NULL marker separating the levels. Apart from it stands the specification: a
concrete syntax with its text and validity, and the trees that respect the precedence and associativity
table. Exactly one tree respects the table for each flat expression, and the shift/reduce machine computes
its value. `Eval` returns a value exactly for the texts of valid expressions whose tree divides by zero
nowhere, and it returns that tree's value; the stack is empty again afterwards, whatever happened. A
printer that writes only the parentheses the table requires is proved to be read back as the tree it
printed, and to write no more parentheses than any other text with that tree. Errors, which the source
throws, are `None`. What the symbols, digits, operators and rows of the table mean is stated in `CalcLaws`,
apart from how they are computed. Integers are unbounded; `/` and `%` truncate toward zero. No product that `pow`
computes exceeds the power in magnitude; of all values that `res` and `x` take for a positive exponent, the
initial `res = 1` included, this holds exactly if the base is not 0 (`PowBoundedExactly`).

**JSON.** `Parser` keeps the cursor; reading at the end of the text gives NUL. Each method is proved to
compute the reading function of its rule, and the reading functions to accept exactly the text of a
concrete syntax that keeps all white space. Numbers keep their text (section 6 of RFC 8259) and strings
their stored form. Only an array or an object may stand at the top (section 2 of RFC 4627). A NUL between
tokens ends the text, as in the source. The printing loops are proved to print the value in some order of its object keys; parsing what any of them prints gives the value back
exactly if the value is a valid array or object. For values the parser itself returned this always holds.
An ordered `format` depends on the value only. The source's names are kept, and they are swapped:
`UnescapeString` adds backslashes, `EscapeString` removes them. The parser accepts `\/` and `\u`, but
strings holding one decode to the empty string; `DecodesExactly` says when. It also accepts strings that
section 7 of RFC 8259 does not; `StandardExactly` says which.

**Assistant.** A state holds the flag, the task list, the mutex, where the worker and each client stand,
and a history of messages and queue events. Each access to `m_thread_idle` and each critical section on
the list is one step; any client thread and the worker may take the next step. A run of a task is any
number of `stop(false)` calls through the callback and then any result. `AssistantThreads.Assistant` is
the object itself: its fields are updated in place, one atomic section a method. Every method takes one
step of the system, and every object carries the run behind it, so that all invariants over runs hold of
it. It is not true that every appended task is run unless a stop clears it: `DropHappens` is the run,
`DropsExactly` the exact condition.
Nor is it true that the worker acts on every accepted start. A start is answered once the worker tests the
task list after it or a stop revokes it. `MissedExactly` says, from every state that any run reaches, that
the worker can fall asleep over a start exactly if the start clears the flag while the worker is about to
set the flag or to wait, or while a connect is about to set it. Only `start(false)` can do so;
`NonLockingStartLost`, `StartOverwrittenByWorker` and `StartOverwrittenByConnect` are the three kinds of run.

**Controller.** `ConvertLf` works in place with two cursors. The comment at
`src/MaaCore/Controller.cpp:664` says that converting twice changes nothing more; `RepairTwice` gives the
exact condition, and `"\r\r\n"` fails it. `Screencap` is proved against a description of what it learns,
and that is followed over any sequence of frames, on links that rewrite line feeds always or from frame
to frame. The swipe's cubic is over real numbers; `RisesExactly` says for which slopes it never falls.

## Model

| member | source | states |
|---|---|---|
| CalcTrees.TreeExists | 3rdparty/include/calculator/calculator.hpp:14-28 | every flat expression has a tree that obeys the precedence and associativity table and reads back as the expression |
| CalcTrees.TreeUnique | 3rdparty/include/calculator/calculator.hpp:14-28 | it has no other such tree |
| CalcTrees.RunIsTreeValue | 3rdparty/include/calculator/calculator.hpp:402-433 | the shift/reduce loop on one stack frame computes the value of the tree that obeys the table |
| CalcTrees.FeedTree | 3rdparty/include/calculator/calculator.hpp:411-430 | on top of any frame whose last operator lets the tree's operator shift, reading a tree's operands leaves exactly its right edge on the stack |
| CalcTrees.RunFailed | 3rdparty/include/calculator/calculator.hpp:209-224 | a division by zero anywhere in a frame fails the whole evaluation, whatever follows |
| CalcTrees.TruncatingDivision | 3rdparty/include/calculator/calculator.hpp:238-239 | quotient and remainder are those of C++: they make up the dividend, the remainder is smaller than the divisor and has the dividend's sign |
| CalcTrees.MapTreeShape | 3rdparty/include/calculator/calculator.hpp:412-414 | the tree depends on the operators alone, not on the operands |
| CalcSyntax.ReadWholeExact | 3rdparty/include/calculator/calculator.hpp:293-314 | a text is read as an expression exactly if it is that valid expression's text; so every text has at most one reading |
| CalcSyntax.ReadOperandSound | 3rdparty/include/calculator/calculator.hpp:362-396 | what is read as an operand is a valid one with exactly that text, and a hexadecimal literal is never cut short |
| CalcSyntax.ReadOperandComplete | 3rdparty/include/calculator/calculator.hpp:362-396 | every valid operand followed by something that cannot continue it is read back |
| CalcSyntax.ReadExprSound | 3rdparty/include/calculator/calculator.hpp:402-433 | what is read at a parenthesis level is a valid expression with exactly that text |
| CalcSyntax.ScanOpText | 3rdparty/include/calculator/calculator.hpp:293-314 | the operator found stands in the text; `<` and `>` count only doubled |
| CalcParser.EvaluateFailsExactly | 3rdparty/include/calculator/calculator.hpp:209-244 | a tree has no value exactly if a division or modulo in it has a right argument of value 0 |
| CalcParser.ExprAstUnique | 3rdparty/include/calculator/calculator.hpp:14-28 | any tree over an expression's operands that obeys the table is its syntax tree |
| CalcParser.RunIsEvaluate | 3rdparty/include/calculator/calculator.hpp:402-433 | the machine, run over an expression's operand values, computes the value of its syntax tree |
| CalcParser.EvalTextExact | 3rdparty/include/calculator/calculator.hpp:101-119 | a value is returned exactly for the texts of valid expressions without a zero divisor, and it is the value of the syntax tree |
| CalcParser.ExpressionParser.constructor | 3rdparty/include/calculator/calculator.hpp:182-185 | a new parser's stack is empty |
| CalcParser.ExpressionParser.Eval | 3rdparty/include/calculator/calculator.hpp:101-119 | the outcome is the one fixed by the text alone, and the stack is empty afterwards on success and failure, so a reused parser agrees with a new one |
| CalcParser.ExpressionParser.Pow | 3rdparty/include/calculator/calculator.hpp:188-206 | squaring computes the power; `res` and `x` take exactly the values of `PowValues`, and no product among them is larger in magnitude than the power |
| CalcParser.PowBoundedExactly | 3rdparty/include/calculator/calculator.hpp:188-206 | for a positive exponent every value that `res` and `x` take, initial ones included, is at most the power in magnitude exactly if the base is not 0 |
| CalcParser.PowUnbounded | 3rdparty/include/calculator/calculator.hpp:190-190 | for base 0 the initial result exceeds the power |
| CalcParser.ProductsBounded | 3rdparty/include/calculator/calculator.hpp:192-203 | from any point of the loop on, no product computed exceeds the final power |
| CalcParser.PowerSquare | 3rdparty/include/calculator/calculator.hpp:199-202 | squaring the base and halving the exponent keeps the power |
| CalcParser.OddStep | 3rdparty/include/calculator/calculator.hpp:194-198 | multiplying into the result keeps the product of result and remaining power, and stays below the final power |
| CalcParser.SquareStep | 3rdparty/include/calculator/calculator.hpp:199-202 | the guarded squaring keeps it too, and stays below the final power |
| CalcParser.ExpressionParser.Calculate | 3rdparty/include/calculator/calculator.hpp:226-244 | each operator's result, with the error for a zero divisor |
| CalcParser.ExpressionParser.EatSpaces | 3rdparty/include/calculator/calculator.hpp:284-288 | the index ends at the first character that is no white space |
| CalcParser.ExpressionParser.Expect | 3rdparty/include/calculator/calculator.hpp:264-269 | the string is passed exactly if it stands at the index |
| CalcParser.ExpressionParser.ParseOp | 3rdparty/include/calculator/calculator.hpp:293-314 | returns the table's row of the operator in the text, or the NULL operator without advancing, or the error on a single angle bracket |
| CalcParser.ExpressionParser.ParseDecimal | 3rdparty/include/calculator/calculator.hpp:330-336 | reads all decimal digits and returns their value |
| CalcParser.ExpressionParser.ParseHex | 3rdparty/include/calculator/calculator.hpp:338-345 | reads all hexadecimal digits after the prefix and returns their value |
| CalcParser.ExpressionParser.ParseLiteral | 3rdparty/include/calculator/calculator.hpp:368-376 | reads the longest literal, hexadecimal or decimal, and returns its value |
| CalcParser.ExpressionParser.ParseValue | 3rdparty/include/calculator/calculator.hpp:362-396 | returns the value of the operand's syntax tree, ends behind it, and leaves the shared stack as it was |
| CalcParser.ExpressionParser.ParseExpr | 3rdparty/include/calculator/calculator.hpp:402-433 | returns the value of the level's syntax tree on top of whatever the shared stack holds, and leaves that untouched |
| CalcPrinter.DecimalLiteral | 3rdparty/include/calculator/calculator.hpp:330-336 | every number's decimal digits are a literal with that value |
| CalcPrinter.PrintExprValid | 3rdparty/include/calculator/calculator.hpp:362-433 | the printed text of every tree is a valid expression |
| CalcPrinter.PrintExprMeans | 3rdparty/include/calculator/calculator.hpp:14-36 | its syntax tree is the tree printed |
| CalcPrinter.PrintEvaluates | 3rdparty/include/calculator/calculator.hpp:101-119 | evaluating the printed text gives the tree's value, and fails exactly if the tree divides by zero |
| CalcPrinter.PrintFewestParens | 3rdparty/include/calculator/calculator.hpp:14-36 | any text with the same syntax tree has at least as many parentheses |
| CalcLaws.AddLaws | 3rdparty/include/calculator/calculator.hpp:235-235 | adding 0 changes nothing, adding one more gives one more |
| CalcLaws.SubLaw | 3rdparty/include/calculator/calculator.hpp:236-236 | subtracting undoes adding, for either summand |
| CalcLaws.MulLaws | 3rdparty/include/calculator/calculator.hpp:237-237 | multiplying is adding repeatedly |
| CalcLaws.DivLaws | 3rdparty/include/calculator/calculator.hpp:238-239 | quotient and remainder exist exactly for a divisor other than 0 and make up the dividend; the remainder is smaller than the divisor and has the dividend's sign |
| CalcLaws.DivUnique | 3rdparty/include/calculator/calculator.hpp:238-239 | no other pair does |
| CalcLaws.PowLaws | 3rdparty/include/calculator/calculator.hpp:240-240 | raising to a power is multiplying repeatedly; an exponent not positive gives 1 |
| CalcLaws.ExpLaw | 3rdparty/include/calculator/calculator.hpp:241-241 | scientific notation multiplies by a power of ten |
| CalcLaws.SignLaws | 3rdparty/include/calculator/calculator.hpp:387-390 | a number and its negative make 0, a number and its complement -1 |
| CalcLaws.SpacesExactly | 3rdparty/include/calculator/calculator.hpp:284-288 | white space by code points |
| CalcLaws.DigitsExactly | 3rdparty/include/calculator/calculator.hpp:316-323 | a character's value as a digit is its place among the sixteen, in either case, and no other character has one |
| CalcLaws.LeadingZero | 3rdparty/include/calculator/calculator.hpp:330-345 | a zero in front of a literal's digits changes nothing |
| CalcLaws.TrailingZero | 3rdparty/include/calculator/calculator.hpp:330-345 | a zero behind them multiplies by the radix |
| CalcLaws.LiteralText | 3rdparty/include/calculator/calculator.hpp:330-356 | the decimal digits of every number evaluate to it, and its hexadecimal ones after `0x` or `0X` |
| CalcLaws.SignTexts | 3rdparty/include/calculator/calculator.hpp:387-390 | what `-`, `+` and `~` before a number evaluate to |
| CalcLaws.SymbolTexts | 3rdparty/include/calculator/calculator.hpp:298-308 | which symbol between two numbers stands for which operation |
| CalcLaws.PowerTexts | 3rdparty/include/calculator/calculator.hpp:307-311 | `**` raises the number before it, `e` and `E` multiply it by a power of ten |
| CalcLaws.ParenthesesKeep | 3rdparty/include/calculator/calculator.hpp:377-386 | parentheses around a text with a value keep it |
| CalcLaws.GroupsExactly | 3rdparty/include/calculator/calculator.hpp:14-28 | of two operators the one in the later row of the table takes the operand between them; in one row the left one does, but the right one of two `**` or two `e` |
| JsonStrings.QuotedRoundTrip | 3rdparty/include/meojson/json.hpp:2408-2480 | removing backslashes undoes adding them, for every string |
| JsonStrings.QuotedValid | 3rdparty/include/meojson/json.hpp:2305-2361 | what adding backslashes gives is always acceptable between quotes |
| JsonStrings.DecodesExactly | 3rdparty/include/meojson/json.hpp:2327-2336 | an accepted string cannot be decoded exactly if it holds `\/` or `\u` |
| JsonStrings.StandardExactly | 3rdparty/include/meojson/json.hpp:2305-2361 | every string of section 7 of RFC 8259 is accepted, and an accepted string is one exactly if no character is below U+0020 and four hexadecimal digits follow every `\u` |
| JsonStrings.NotStandard | 3rdparty/include/meojson/json.hpp:2315-2349 | the shortest accepted strings that are not |
| JsonStrings.DecodedExactly | 3rdparty/include/meojson/json.hpp:2444-2480 | decoding gives exactly what section 7 of RFC 8259 says the escapes stand for, by code points; it fails exactly on `\/`, `\u` and unknown letters and lets a lone backslash at the end pass |
| JsonStrings.StoredExactly | 3rdparty/include/meojson/json.hpp:2408-2442 | the stored form of a string is the one that denotes it and escapes just the seven code points that must be |
| JsonStrings.OpaqueEscapesFail | 3rdparty/include/meojson/json.hpp:2473-2474 | each of the two alone is accepted and not decodable |
| JsonStrings.RequotedExactly | 3rdparty/include/meojson/json.hpp:2408-2480 | decoding and storing again gives back the same form exactly for the forms the library itself produces |
| JsonStrings.UnescapeString | 3rdparty/include/meojson/json.hpp:2408-2442 | the loop that rewrites the string it indexes computes the stored form, which denotes the string by section 7 of RFC 8259 and escapes nothing more than needed |
| JsonStrings.EscapeString | 3rdparty/include/meojson/json.hpp:2444-2480 | likewise what the stored form denotes, or the empty string for an opaque or unknown escape |
| JsonStrings.EscapeUnescape | 3rdparty/include/meojson/json.hpp:2408-2480 | the two loops one after the other give back every string |
| JsonTokens.NumberSound | 3rdparty/include/meojson/json.hpp:2142-2178 | what is read as a number is one by section 6 of RFC 8259 |
| JsonTokens.NumberAt | 3rdparty/include/meojson/json.hpp:2142-2178 | every number of RFC 8259 before a character that cannot continue it is read whole |
| JsonTokens.ReadStringSound | 3rdparty/include/meojson/json.hpp:2305-2361 | what is read as a string is a valid stored form between quotes |
| JsonTokens.ReadStringAt | 3rdparty/include/meojson/json.hpp:2305-2361 | every valid stored form between quotes is read whole, unless the text ends there |
| JsonTokens.QuotedAccepted | 3rdparty/include/meojson/json.hpp:2305-2361 | so is what `unescape_string` makes of any string |
| JsonTokens.ClassesExactly | 3rdparty/include/meojson/json.hpp:2363-2402 | white space, digits, exponent letters and signs by code points |
| JsonNumbers.NumbersExactly | 3rdparty/include/meojson/json.hpp:2142-2178 | the grammar of numbers agrees on every text with an automaton that reads them from left to right |
| JsonSyntax.ReadValueSound | 3rdparty/include/meojson/json.hpp:2064-2093 | what is read is the meaning of a concrete syntax with exactly that text |
| JsonSyntax.ReadValueComplete | 3rdparty/include/meojson/json.hpp:2064-2093 | every valid concrete syntax is read back as its meaning |
| JsonSyntax.ReadItemsComplete | 3rdparty/include/meojson/json.hpp:2189-2238 | so is every list of items, with white space anywhere |
| JsonSyntax.ReadMembersComplete | 3rdparty/include/meojson/json.hpp:2240-2303 | so is every list of members |
| JsonSyntax.ReadDocumentExact | 3rdparty/include/meojson/json.hpp:2033-2062 | a text is accepted exactly if it is one array or object between white space, ended early by a NUL if there is one, and gives what its syntax stands for |
| JsonMeaning.FirstKeyWins | 3rdparty/include/meojson/json.hpp:2284-2285 | an object has exactly the decoded keys of its members, and under each the value of the first member with that key |
| JsonMeaning.KeyExactly | 3rdparty/include/meojson/json.hpp:2284-2284 | a key is what it denotes, and empty if it holds an escape that is not decoded |
| JsonMeaning.ItemsInOrder | 3rdparty/include/meojson/json.hpp:2189-2238 | an array has the values of its items in the order written |
| JsonMeaning.ArrayReads | 3rdparty/include/meojson/json.hpp:2064-2238 | which text stands for which scalar; brackets and a comma make an array of two, in order |
| JsonMeaning.ObjectReads | 3rdparty/include/meojson/json.hpp:2240-2303 | braces, a quoted key and a colon make an object; of two equal keys the first counts |
| JsonMeaning.EmptyReads | 3rdparty/include/meojson/json.hpp:2189-2303 | the texts of the empty array and the empty object |
| JsonParser.Parser.ParseText | 3rdparty/include/meojson/json.hpp:2028-2031 | the parser computes the reading of the whole text |
| JsonParser.Parser.Parse | 3rdparty/include/meojson/json.hpp:2033-2062 | the same, from a cursor at the start; the cursor stays inside the text |
| JsonParser.Parser.SkipWhitespace | 3rdparty/include/meojson/json.hpp:2363-2380 | the cursor ends at the first character that is no white space; true if something other than NUL stands there |
| JsonParser.Parser.SkipDigit | 3rdparty/include/meojson/json.hpp:2382-2402 | passes at least one digit and all that follow, and fails at the end of the text |
| JsonParser.Parser.ParseValue | 3rdparty/include/meojson/json.hpp:2064-2093 | ends, computes the reading of a value, advances on success and never passes the end |
| JsonParser.Parser.ParseNull | 3rdparty/include/meojson/json.hpp:2095-2109 | accepts exactly the word |
| JsonParser.Parser.ParseBoolean | 3rdparty/include/meojson/json.hpp:2111-2140 | accepts exactly the two words |
| JsonParser.Parser.ParseNumber | 3rdparty/include/meojson/json.hpp:2142-2178 | accepts exactly what is read as a number and keeps its text |
| JsonParser.Parser.ParseString | 3rdparty/include/meojson/json.hpp:2180-2187 | accepts exactly the strings and keeps the stored form |
| JsonParser.Parser.ParseStdstring | 3rdparty/include/meojson/json.hpp:2305-2361 | the same, as a string |
| JsonParser.Parser.ParseArray | 3rdparty/include/meojson/json.hpp:2189-2238 | computes the reading of an array, cursor as above |
| JsonParser.Parser.ParseObject | 3rdparty/include/meojson/json.hpp:2240-2303 | computes the reading of an object, cursor as above |
| JsonPrinter.PrintedValid | 3rdparty/include/meojson/json.hpp:1088-1122 | the printed text of a valid value is valid concrete syntax, indented by any white space, keys in any order |
| JsonPrinter.PrintedMeaning | 3rdparty/include/meojson/json.hpp:1510-1562 | its meaning is the value, whatever the order of keys and the indentation |
| JsonPrinter.ParsedIsValid | 3rdparty/include/meojson/json.hpp:2033-2361 | what the parser returns always has valid numbers and strings |
| JsonPrinter.PrintThenParse | 3rdparty/include/meojson/json.hpp:828-864 | parsing any print of a valid array or object gives the value back |
| JsonPrinter.PrintThenParseExactly | 3rdparty/include/meojson/json.hpp:828-864 | and it does so for no other values |
| JsonPrinter.ReparseStable | 3rdparty/include/meojson/json.hpp:2284-2285 | for every accepted text, with `\/`, `\u` and duplicate keys or not, parsing any print of the value gives that value again |
| JsonFormat.ToString | 3rdparty/include/meojson/json.hpp:828-845 | prints the value compactly in some order of its keys |
| JsonFormat.ArrayToString | 3rdparty/include/meojson/json.hpp:1088-1099 | the loop with its trailing comma prints the array |
| JsonFormat.ObjectToString | 3rdparty/include/meojson/json.hpp:1510-1521 | the loop prints the object, each key once |
| JsonFormat.Format | 3rdparty/include/meojson/json.hpp:847-864 | prints the value indented from any depth, with all keys in order if asked |
| JsonFormat.ArrayFormat | 3rdparty/include/meojson/json.hpp:1101-1122 | the indented loop prints the array |
| JsonFormat.ObjectFormat | 3rdparty/include/meojson/json.hpp:1523-1562 | the indented loop prints the object, sorted or not |
| JsonFormat.SortKeys | 3rdparty/include/meojson/json.hpp:1536-1546 | the keys come out increasing, none lost |
| JsonFormat.OrderedUnique | 3rdparty/include/meojson/json.hpp:1536-1546 | a value has one arrangement with keys in order, so an ordered print does not depend on the map's iteration order |
| JsonFormat.LessExactly | 3rdparty/include/meojson/json.hpp:1541-1542 | the order of keys: at the first difference the smaller character decides, and a proper prefix comes first |
| JsonLayout.DeeperIsShifted | 3rdparty/include/meojson/json.hpp:1101-1122 | printing one level deeper shifts every line once more |
| JsonLayout.IndentedLists | 3rdparty/include/meojson/json.hpp:1101-1562 | an indented list or object: each item on a line of its own, as it would be printed by itself but shifted once more, and the closing bracket back on its own line |
| JsonLayout.CompactLists | 3rdparty/include/meojson/json.hpp:1088-1521 | a compact list or object: its parts with commas between them and nothing else |
| JsonFormat.ToStringThenParse | 3rdparty/include/meojson/json.hpp:828-845 | printer loops and parser together: the value comes back exactly if it is a valid array or object |
| JsonFormat.FormatThenParse | 3rdparty/include/meojson/json.hpp:847-864 | the same for indented printing with any white space |
| JsonFormat.ParsePrintParse | 3rdparty/include/meojson/json.hpp:2033-2062 | parsing, printing and parsing again gives what the first parse gave, on every text |
| AssistantQueue.RunLocks | src/MaaCore/Assistant.cpp:118-134 | in every state of every run whoever is inside a critical section is the one holder of the mutex |
| AssistantQueue.RunQueue | src/MaaCore/Assistant.cpp:330-353 | what every step keeps: ids in order, nothing lost, and how the list relates to the task being run |
| AssistantQueue.StartsIncrease | src/MaaCore/Assistant.cpp:334-347 | in every run started ids are strictly increasing, so none starts twice; the task being run is the list's head or not in the list |
| AssistantQueue.TasksConserved | src/MaaCore/Assistant.cpp:186-190 | in every run the appended ids are, in order and each once, those started, cleared or dropped and then those waiting |
| AssistantQueue.IdsConsecutive | src/MaaCore/Assistant.cpp:187-190 | in every run the ids given out count on from the counter's first value |
| AssistantQueue.DropsExactly | src/MaaCore/Assistant.cpp:349-352 | a task is dropped unrun exactly if an append fell between a stop that cleared the list and the pop of the task running then |
| AssistantQueue.DropHappens | src/MaaCore/Assistant.cpp:349-352 | a concrete run in which an appended task is popped without having run |
| AssistantMessages.RunMessages | src/MaaCore/Assistant.cpp:329-383 | what every step keeps about the messages sent |
| AssistantMessages.PhaseGivesRounds | src/MaaCore/Assistant.cpp:340-376 | messages that follow the phases are whole rounds and at most one just opened |
| AssistantMessages.MessagesFormRounds | src/MaaCore/Assistant.cpp:329-383 | in every run the worker's messages are rounds of a start, one of completed, error or stopped for the same id, an optional end of all tasks and an optional extra stop, in the order of the tasks started |
| AssistantMessages.FinishedOnce | src/MaaCore/Assistant.cpp:364-368 | in every run no id is listed as finished by two messages |
| AssistantReports.JudgedExactly | src/MaaCore/Assistant.cpp:346-357 | in every run the first message after a task's start says stopped exactly if the flag is set then, and otherwise completed or failed exactly as the latest return in the run, which is that task's, said |
| AssistantReports.MessagesTell | src/MaaCore/Assistant.cpp:344-376 | in every run a start is that of the list's head, stopped is sent only with the flag set, completed and failed only with it clear, the end of all tasks only with an empty list |
| AssistantReports.DueIsSent | src/MaaCore/Assistant.cpp:355-376 | where a message is due it is sent: a report after every pop, the end of all tasks when the list is found empty with the flag clear at the report, an extra stop when the flag is set after the delay |
| AssistantFinished.ListedWereStarted | src/MaaCore/Assistant.cpp:344-368 | in every run `AllTasksCompleted` lists its own task last, and its list is the tasks announced last before it, in order and none left out |
| AssistantFinished.ListsSinceEmptied | src/MaaCore/Assistant.cpp:359-368 | when it is sent, its list is exactly the tasks announced since the list was last empty |
| AssistantFinished.RunFinished | src/MaaCore/Assistant.cpp:346-380 | in every state of every run the finished tasks are those that have returned since the list was last empty |
| AssistantWake.FlagLeftClearedExactly | src/MaaCore/Assistant.cpp:283-300 | in every run: while the worker waits without predicate and nobody is about to notify it or to set the flag, the flag is left cleared exactly if it was last written by a start without the lock as the worker was about to wait; a clear inside the mutex is never the last write then |
| AssistantStarts.MissedExactly | src/MaaCore/Assistant.cpp:283-300 | at the end of every run, a start about to clear the flag can be missed, that is, some continuation puts the worker to sleep unanswered with nobody about to wake it, exactly if the worker is about to set the flag or to wait, or a connect will set the flag |
| AssistantStarts.StartAnswered | src/MaaCore/Assistant.cpp:333-334 | in every run that ends with the worker asleep and nobody about to wake it, every start that did not clear the flag in vain was followed by the worker's test of the list or by a stop |
| AssistantStarts.LockingStartNotMissed | src/MaaCore/Assistant.cpp:291-297 | a locking start can be missed in no continuation of any run |
| AssistantStarts.StandingStep | src/MaaCore/Assistant.cpp:329-384 | what every step but an answer keeps after a start that is not in vain: the flag stays cleared, nobody is about to overwrite it, a waiting worker is about to be notified |
| AssistantStarts.StartOverwrittenByWorker | src/MaaCore/Assistant.cpp:334-382 | a run in which an accepted start falls between the worker's reading and setting the flag: it sleeps with the flag set and the task is never run |
| AssistantStarts.StartOverwrittenByConnect | src/MaaCore/Assistant.cpp:118-134 | a run in which a connect sets the flag that an accepted start has cleared, to the same effect |
| AssistantWake.NoLostStart | src/MaaCore/Assistant.cpp:283-300 | so if all starts of a run lock, the waiting worker has the flag set whenever no client is inside its section |
| AssistantWake.NonLockingStartLost | src/MaaCore/Assistant.cpp:378-382 | with `start(false)` a run leads to a waiting worker, the flag cleared and nobody to notify it |
| AssistantThreads.Assistant.Safe | src/MaaCore/Assistant.cpp:325-385 | every object has all the invariants, no id above the counter, and has started tasks in increasing order |
| AssistantThreads.Assistant.AppendTask | src/MaaCore/Assistant.cpp:186-190 | puts a task at the end of the list under an id never used before |
| AssistantThreads.Assistant.Start | src/MaaCore/Assistant.cpp:288-294 | accepted exactly if the flag says idle and the controller is ready, and then about to lock or to clear the flag; a refused start changes nothing |
| AssistantThreads.Assistant.Stop | src/MaaCore/Assistant.cpp:307-312 | sets the flag before the lock; the list is not yet cleared |
| AssistantThreads.Assistant.Connect | src/MaaCore/Assistant.cpp:118-123 | takes the mutex; the worker is in none of its critical sections then |
| AssistantThreads.Assistant.Proceed | src/MaaCore/Assistant.cpp:296-313 | a start clears the flag, and after its notification the worker waits in neither of its waits; a stop ends with an empty list |
| AssistantThreads.Assistant.ProceedConnect | src/MaaCore/Assistant.cpp:120-133 | connect is refused exactly if the flag does not say idle; when it ends the flag is set and the mutex free; it leaves the list alone except for a `stop(false)` |
| AssistantThreads.Assistant.TaskReturn | src/MaaCore/Assistant.cpp:346-347 | the task is put on the list of finished tasks, on which it was not |
| AssistantThreads.Assistant.WorkingProc | src/MaaCore/Assistant.cpp:329-384 | while a client holds the mutex no task is started and none popped; a task is started from the head of the list only, and started ids only ever increase; the report about a task fits the flag and what the task's latest return said |
| AssistantThreads.Assistant.ClearList | src/MaaCore/Assistant.cpp:313-313 | empties the list; every task that has not started is recorded as cleared |
| AssistantThreads.Assistant.PopFront | src/MaaCore/Assistant.cpp:349-353 | pops whatever stands at the head by then |
| ControllerLf.ConvertLf | src/MaaCore/Controller.cpp:346-376 | in place, the buffer becomes the text without each `\r` directly before `\n`; true exactly if there was one, and unchanged otherwise |
| ControllerLf.FindPair | src/MaaCore/Controller.cpp:352-362 | finds the first pair |
| ControllerLf.Compact | src/MaaCore/Controller.cpp:363-371 | moves forward exactly what is kept |
| ControllerLf.RepairUndoesRewriting | src/MaaCore/Controller.cpp:345-376 | the repair undoes rewriting every `\n` as `\r\n`, on every text, pairs of its own included |
| ControllerLf.RepairChangesPairs | src/MaaCore/Controller.cpp:345-362 | it changes a text exactly if the text has a pair |
| ControllerLf.RepairTwice | src/MaaCore/Controller.cpp:664-667 | a second repair changes nothing exactly for the texts without `\r\r\n` |
| ControllerLf.RepairTwiceFails | src/MaaCore/Controller.cpp:664-667 | the shortest text it does change |
| ControllerScreencap.Controller.constructor | src/MaaCore/Controller.h:179-185 | nothing is known of the link at first |
| ControllerScreencap.Controller.Screencap | src/MaaCore/Controller.cpp:627-689 | what is taken, what the decoder accepted and what is known afterwards, on every path |
| ControllerScreencap.Controller.ClearLfInfo | src/MaaCore/Controller.cpp:691-694 | forgets the end of line and nothing else |
| ControllerScreencap.TakenExactly | src/MaaCore/Controller.cpp:636-677 | for any decoder: exactly when a text is taken, in which form, and that the decoder accepts what is taken |
| ControllerScreencap.LearntExactly | src/MaaCore/Controller.cpp:646-687 | after a success repairs are on exactly if the repair has changed the text; after a failure at most needless repairs have been turned off |
| ControllerScreencap.CaptureExact | src/MaaCore/Controller.cpp:636-688 | one screencap of any frame fails exactly if the frame is empty, or what arrives is smaller than a tenth of the last screencap, or repairs are on, the link does not rewrite and the frame has a pair; what is taken is always the original frame, and a failure teaches nothing |
| ControllerScreencap.HarmedFrameFails | src/MaaCore/Controller.cpp:646-667 | the shortest frame that fails in the last way |
| ControllerScreencap.KnownExactly | src/MaaCore/Controller.cpp:646-688 | over any frames, repairs are on exactly if a rewritten line feed or the start of the run turned them on and no frame could be taken since |
| ControllerScreencap.RewritingLinkExactly | src/MaaCore/Controller.cpp:627-689 | on a link that always rewrites, over any frames and from every state, a screencap hands the decoder the original exactly if the frame is not empty and does not arrive smaller than a tenth of the last one taken |
| ControllerScreencap.RewritingLinkSucceeds | src/MaaCore/Controller.cpp:627-689 | so with frames of one size every screencap succeeds from every state and hands the decoder the original |
| ControllerScreencap.MixedLinkFailsExactly | src/MaaCore/Controller.cpp:636-668 | on a link that rewrites or not from frame to frame, over any frames, a screencap fails exactly if it is refused for its size, or comes not rewritten with a pair of its own after repairs were turned on and no frame could be taken since |
| ControllerSwipe.RisesExactly | src/MaaCore/Controller.cpp:806-811 | between 0 and 1 the cubic never falls exactly if both slopes are non-negative and either sum to at most 3 or the square of what they exceed 3 by is at most their product |
| ControllerSwipe.UpToThreeIsSmooth | src/MaaCore/Controller.cpp:806-811 | all slopes from 0 to 3 are among these |
| ControllerSwipe.SplineRises | src/MaaCore/Controller.cpp:806-811 | with such slopes the progress starts at 0, ends at 1, never falls and never leaves that range |
| ControllerSwipe.ChordNonNegative | src/MaaCore/Controller.cpp:806-811 | with such slopes no chord of the curve falls |
| ControllerSwipe.LerpToward | src/MaaCore/Controller.cpp:818-819 | more progress never leads back, also after truncation toward zero, and never past the ends |
| ControllerSwipe.SwipeIsMonotone | src/MaaCore/Controller.cpp:815-843 | with such slopes the touch moves monotonically on each axis from its start, stays in the rectangle of the two ends and on the touch screen, and ends at the destination when that is in range |
| ControllerSwipe.StartsWithSlopeIn | src/MaaCore/Controller.cpp:817-819 | after a part of its time the touch is, on each axis, where a straight line from the start with `slope_in` leads, but for a pixel and a bend that grows with the square of that part |
| ControllerSwipe.EndsWithSlopeOut | src/MaaCore/Controller.cpp:817-819 | the same seen from the end, with `slope_out` |
| ControllerSwipe.PathExactly | src/MaaCore/Controller.cpp:816-839 | the moves are exactly the end and the points at the even times before it, as far as they are on the touch screen |
| ControllerSwipe.OnScreenNearest | src/MaaCore/Controller.cpp:790-795 | the start is brought to the nearest point of the screen |
| ControllerSwipe.Minitoucher.MinitouchMove | src/MaaCore/Controller.cpp:815-840 | the stepping loop makes the moves of that path |
| ControllerSwipe.Minitoucher.SwipeWithoutScale | src/MaaCore/Controller.cpp:784-850 | down at the start brought onto the screen, the moves of the path from there, then up |

## Left out

- The evaluator's bitwise and shift operators are arbitrary functions; fixed-width overflow and negative shifts are not modelled; `eval` of a single character is `Eval` of a text of length one.
- The error messages of the evaluator and `checkZero`'s search for the token to name; only which inputs fail.
- JSON typed getters, conversions, merging operators, invalid values, the byte-order mark and reading from files. A `char` stands for a byte.
- The iteration order of an `unordered_map`: `KeyOrder` chooses any order at all, anew for each map. `std::sort`: an insertion loop stands for it.
- Parts of larger functions of the source are methods of their own: `ParseLiteral` and `ExpectAngles`; `MatchWord`, `ParseKey`, `SkipFraction` and `SkipExponent`; `FindPair`, `Put` and `Compact`; `RunTask`, `Report` and `Wait`.
- The destructor and the exit flag; how long the timed wait lasts; several `Assistant` objects sharing the id counter; `set_task_params`; the message thread and messages of other threads.
- A task or a connecting controller may call `stop(false)` at any time and any number of times, more than the source's callback does. Clearing the list without the lock is one step; C++ does not define what a simultaneous access of the worker sees.
- What tasks do in `run`, `set_params` and what the controller does to connect: only that they return, with any result.
- Commands, pipes and sockets, reconnecting, image decoding: the response is any text or none, the decoder any predicate.
- ControllerScreencap.RewritingLinkSucceeds: only for frames not empty and of steady size, which equal-sized frames are after a connect; `RewritingLinkExactly` is about any frames.
- ControllerSwipe.Minitoucher.SwipeWithoutScale: the extra leg, the pause key and `duration == 0` are not modelled; in the last case the source divides by zero and converts a progress that is no number to `int`, which C++ leaves undefined; real arithmetic stands for `double`.
- ControllerSwipe.Minitoucher.MinitouchMove: the same, for `duration == 0`.
- Choosing the fastest screencap method, clicking, and the adb variant of the swipe.
