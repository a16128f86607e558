# Shared utilities: polling worker, count-down timers, validators and helpers

A Dafny model of the core of a C# utility library:

- **ThreadBase** (`thread_base.dfy`, `thread_properties.dfy`): a polling worker. `Start` clears a stop latch and starts a thread. `Stop` sets the latch. The thread's `Run` does the following:
  - It calls `OnStart`.
  - While no stop is requested, it waits up to `ProcessInterval` ms for the latch and calls `OnProcess` on every timeout.
  - When `OnProcess` throws, it waits `FailureDelay` ms, logs the exception, and re-checks the latch.
  - It ends with `OnStop`.
- **How the thread is modelled:** the real thread is replaced by a sequence of ticks. Each tick supplies everything the thread cannot decide itself:
  - whether the owner called `Stop` or changed the interval;
  - whether the wait primitive throws;
  - whether `OnProcess` throws.

  The hooks, the log entries and the wait results are appended to a trace. `ThreadBase.Run` is an imperative method with the source's nested loops. It is proved to produce exactly the trace and final state of the specification function `RunSpec`. The lemmas of `ThreadingProperties` state the ordering, termination and fault-handling rules of the source on that specification.
- **Timeout / TimeoutHighPerformance** (`timer.dfy`): count-down timers.
  - The clock is a parameter, in 100 ns ticks.
  - `TimeSpan.TotalMilliseconds` gives a fractional `double`, and the cast to `ulong` truncates it toward zero. The model writes out that truncation on the integer tick count.
  - The model also writes out the unspecified result of casting an out-of-range value.
- **Validation** (`validation.dfy`): the decisions of the WinForms validators. Each control is reduced to what the check reads from it: its text, its selected index, or its number of selected or checked items.
- **StringEntension** (`string_extension.dfy`): `SafeSubString` and `ContainsNoCase`. A null string is `None`, and a thrown exception is a `Failure`.
- **EnumerableExtension** (`enumerable_extension.dfy`): `ToCSVString`, `IndexOf` and `Descendants`. Each is a method with the loop of the source, proved against a function or, for `IndexOf`, a first-match postcondition.
- **DBCodeAttribute** (`db_code.dfy`): the mapping between enum values and database codes, over the table of the enum's members (its static literal fields) in declaration order.
- **Wrappers** (`wrappers.dfy`): the shared `Option` and `Result` types.

Where the comments of the source and its code disagree, the model follows the code:

- `FailureDelay` is 10000 ms, although its comment says 30 s.
- `Run` does not end when `OnProcess` throws, although its summary says it does. See `RunNeedsStop`.
- `ToCode` returns null when nothing matches, not the empty string its comment promises.
- `ToEnum` returns `default(T)` (0) when nothing matches, not the "first enumerated value".
- The max-length `ValidateText` never looks at its type argument.
- The header of ThreadBase.cs mentions an unexpected-stop event that the code does not have. It is not modelled.

## Model

| member | source | states |
|---|---|---|
| Threading.WaitOn | ThreadBase.cs:206-221 | A wait returns 0 exactly when the latch is set, the wait does not throw and the timeout is at least -1. It stays blocked exactly when it is an infinite wait on a clear latch. Otherwise it returns WaitTimeout, and it has faulted exactly when the primitive threw or the timeout was below -1. |
| Threading.ThreadBase.constructor | ThreadBase.cs:44-49 | A new worker has its name and interval, a clear latch, an unstarted thread and an empty trace. |
| Threading.ThreadBase.SetProcessInterval | ThreadBase.cs:58-62 | The setter stores the interval and changes nothing else. |
| Threading.ThreadBase.HasStopBeenRequested | ThreadBase.cs:67-70 | The zero-timeout wait returns the latch and changes nothing. |
| Threading.ThreadBase.Start | ThreadBase.cs:88-92 | The latch is cleared in every case, so an earlier Stop has no lasting effect. The thread starts exactly when it has never been started; otherwise Thread.Start throws with the latch already cleared. |
| Threading.ThreadBase.Stop | ThreadBase.cs:98-101 | Stop only sets the latch, so calling it again leaves the same state. |
| Threading.ThreadBase.Join | ThreadBase.cs:106-109 | Join returns for a terminated thread, blocks for a running one and throws for one never started. |
| Threading.ThreadBase.WaitForTimeOut | ThreadBase.cs:206-221 | The result is the wait outcome of WaitOn. One log entry is written exactly when the wait threw. The latch is untouched. |
| Threading.ThreadBase.WaitAndProcess | ThreadBase.cs:180-184 | One wait of the inner loop, then OnProcess on a timeout, appends exactly the events of the specification's PollStep and goes on where it does: the next wait, the same infinite wait, the catch block on a throw, or the latch check on a signal. |
| Threading.ThreadBase.BackOff | ThreadBase.cs:187-192 | The catch block waits FailureDelay, logs the OnProcess exception and goes back to the latch check. |
| Threading.ThreadBase.Run | ThreadBase.cs:168-197 | Run appends exactly the trace of RunSpec: OnStart, then the loops, then OnStop. It ends with RunSpec's latch and interval. It finishes, terminating the thread, exactly when RunSpec reaches its end. |
| ThreadingProperties.NoOnStartInLoops | ThreadBase.cs:171-196 | The loops and OnStop never call OnStart. |
| ThreadingProperties.OnStartOnlyFirst | ThreadBase.cs:168-197 | OnStart is the first event of a run and occurs nowhere else. |
| ThreadingProperties.OnStopMarksFinish | ThreadBase.cs:172-196 | From any point of the loops, OnStop occurs exactly when the run finishes. It is then the last event and occurs once. |
| ThreadingProperties.OnStopLastWhenFinished | ThreadBase.cs:168-197 | In a whole run, OnStop is called exactly when Run finishes, as its last event, exactly once. |
| ThreadingProperties.FinishNeedsStop | ThreadBase.cs:172-193 | Under the owner calls the ticks carry (Stop and the interval setter), the latch is never cleared while Run runs. Run only finishes with the latch set. The latch is set only by a stop requested before the run or during it. |
| ThreadingProperties.RunNeedsStop | ThreadBase.cs:172-193 | Without a call of Stop, Run never finishes, whatever OnProcess and the waits throw. |
| ThreadingProperties.StopObservedPromptly | ThreadBase.cs:172-196 | Take a set latch, waits that do not throw and a valid interval. From anywhere in the loops, Run reaches OnStop within two ticks without calling OnProcess again. |
| ThreadingProperties.StoppedAtFirstCheck | ThreadBase.cs:170-172 | With the latch already set when Run begins, the run is OnStart followed directly by OnStop. |
| ThreadingProperties.WaitFaultCallsOnProcess | ThreadBase.cs:180-182 | A wait that throws is logged and taken for a timeout, so OnProcess is called even when the latch is set. |
| ThreadingProperties.BadIntervalIgnoresStop | ThreadBase.cs:206-221 | Take a ProcessInterval below -1 that the owner does not change, and no OnProcess faults. Every wait throws, is logged and is followed by OnProcess, and Run never leaves the inner loop, even after Stop. |
| ThreadingProperties.LoopsPairProcessWithTimeout | ThreadBase.cs:177-185 | In the loops, every OnProcess directly follows a wait that returned WaitTimeout, and every such wait is directly followed by OnProcess. |
| ThreadingProperties.OnProcessExactlyOnTimeout | ThreadBase.cs:168-197 | In a whole run, OnProcess is called exactly after each wait that timed out. |
| ThreadingProperties.StepCounts | ThreadBase.cs:177-192 | One step keeps the books: each OnProcess throw opens a backoff, and each backoff closes with one FailureDelay wait and one log entry. |
| ThreadingProperties.LoopCounts | ThreadBase.cs:172-193 | Over any stretch of the loops, throws plus a pending backoff equal backoff waits plus a pending backoff. Backoff waits equal process-fault log entries. |
| ThreadingProperties.FaultsBackedOffAndLogged | ThreadBase.cs:168-197 | In a finished run, the number of OnProcess throws equals the number of FailureDelay waits and the number of process-fault log entries. |
| Timer.TruncatedMilliseconds | Timeout.cs:59 | The truncated milliseconds lie within one millisecond of the ticks, rounded toward zero. |
| Timer.ExpiredExactly | Timeout.cs:57-60 | For a clock that has not gone back, the timer has expired exactly when interval × 10000 ticks have elapsed. |
| Timer.ExpiredJustBefore | Timeout.cs:59 | For a clock that went back by less than 1 ms, only a zero interval has expired. |
| Timer.ExpiredStays | Timeout.cs:57-60 | With a clock that does not go back and an unchanged interval, an expired timer stays expired until it is re-armed. |
| Timer.Timeout.constructor | Timeout.cs:26-37 | Construction arms the timer at the current time and stores the interval. |
| Timer.Timeout.SetInterval | Timeout.cs:42 | The Interval setter changes the interval without re-arming the timer. |
| Timer.Timeout.Start | Timeout.cs:45-48 | Start re-arms the timer at the current time. |
| Timer.Timeout.Reset | Timeout.cs:51-54 | Reset re-arms the timer at the current time, exactly as Start does. |
| Timer.Timeout.HasTimedOut | Timeout.cs:57-60 | The query changes nothing and is Expired on the elapsed ticks. It is true exactly when interval ms have elapsed. After a clock step back of under 1 ms it is true only for a zero interval; after a larger step back it depends on the unspecified cast. It is always true for a zero interval. |
| Timer.Stopwatch.ElapsedMilliseconds | Timeout.cs:105 | The result is the stopwatch's accumulated and current ticks in whole milliseconds. |
| Timer.TimeoutHighPerformance.constructor | Timeout.cs:70-81 | Construction starts a fresh stopwatch now and stores the interval. |
| Timer.TimeoutHighPerformance.SetInterval | Timeout.cs:86 | The Interval setter changes the interval without restarting the stopwatch. |
| Timer.TimeoutHighPerformance.Start | Timeout.cs:89-93 | Start restarts the stopwatch from the current time with nothing accumulated. |
| Timer.TimeoutHighPerformance.Reset | Timeout.cs:96-100 | Reset does exactly what Start does. |
| Timer.TimeoutHighPerformance.HasTimedOut | Timeout.cs:103-106 | The query is the same Expired test as Timeout's, on the ticks since the last start. It is true exactly when interval ms have elapsed. |
| Validation.ValidateText | Validation.cs:44-92 | An empty required text fails first. Otherwise the lower-cased type name decides: "string" gives true, and "double", "int32" and "uint32" give the verdict of their TryParse on the text. Any other type name throws ApplicationException("Invalid type " + name). |
| Validation.ValidateTextString | Validation.cs:57-60 | The string type accepts every text except a missing required value, whatever the case of its name. |
| Validation.EmptyOptionalNumberFails | Validation.cs:62-78 | An optional numeric field left empty still fails, because the parser rejects the empty text. |
| Validation.ValidateTextLength | Validation.cs:105-125 | The max-length check passes exactly when the text is not a missing required value and is at most the limit long. |
| Validation.ValidateTextLengthAtLimit | Validation.cs:117-124 | A text of exactly the limit passes, and one character over fails. |
| Validation.ValidateListControl | Validation.cs:165-278 | ValidateListControl and ValidateComboBox fail exactly when a selection is required and SelectedIndex is -1. |
| Validation.ValidateTreeView | Validation.cs:248-259 | The check fails exactly when a selection is required and there is no selected node. |
| Validation.ValidateItemCount | Validation.cs:189-240 | The three-argument ValidateListView and ValidateCheckedListBox fail exactly when an item is required and none is selected (checked), or single-item mode is on and the count is not 1. |
| Validation.ValidateItemCountAnyRequired | Validation.cs:185-220 | The two-argument ValidateListView and ValidateCheckedListBox ignore bRequired and pass exactly when some item is selected (checked). |
| Validation.SingleItemOnlyMeansExactlyOne | Validation.cs:189-208 | In single-item mode, the check passes exactly when one item is selected, whether or not an item is required. |
| Validation.ValidatePhoneNumberAddress | Validation.cs:329-363 | The loop accepts exactly the texts that pass the required/length rule and are either empty, or consist of digits with '+' allowed only at index 0 or 1 and are not "999" or "911". |
| Validation.EmergencyNumbersRefused | Validation.cs:355-360 | "999" and "911" are refused under every setting. |
| Validation.LatePlusRefused | Validation.cs:340-347 | A '+' at index 2 or later always fails the character check. |
| Validation.PhoneNumberDigitsAccepted | Validation.cs:329-363 | Any other digit string within the limits passes, and an optional empty field passes. |
| Validation.ValidateEmailAddress | Validation.cs:290-317 | The check passes exactly when the required/length rule passes and the text is empty or matches the address pattern. |
| StringExtension.SafeSubString | StringEntension.cs:18-26 | A null string gives null. A negative start or length throws ArgumentOutOfRange, because clamping never raises a bound. Otherwise the result is a prefix of the string's suffix from min(start, \|s\|), of length min(length, \|s\| - min(start, \|s\|)). |
| StringExtension.SafeSubStringInRange | StringEntension.cs:23-25 | An in-range request gives exactly String.Substring. |
| StringExtension.SafeSubStringPastEnd | StringEntension.cs:23-25 | A start at or past the end gives the empty string. |
| StringExtension.SafeSubStringSplit | StringEntension.cs:23-25 | Two adjacent safe substrings concatenate to the safe substring covering both ranges. |
| StringExtension.IndexOfFrom | StringEntension.cs:15 | The result is the first occurrence at or after the start, and -1 exactly when there is none. |
| StringExtension.ContainsNoCase | StringEntension.cs:11-16 | A null string gives false. A null value throws ArgumentNull. Otherwise the call succeeds. |
| StringExtension.ContainsNoCaseIsFoldedContainment | StringEntension.cs:15 | For non-null arguments, the result is substring containment after folding both sides. |
| StringExtension.ContainsNoCaseEmpty | StringEntension.cs:15 | The empty string is contained in every non-null string. |
| EnumerableExtension.ToCSVString | EnumerableExtension.cs:11-21 | The appending loop and the final shortening produce the elements joined by the delimiter, with no trailing delimiter. An empty list gives "". |
| EnumerableExtension.TerminatedIsJoinPlusDelim | EnumerableExtension.cs:14-19 | The builder's content after the loop is the join followed by one delimiter. |
| EnumerableExtension.JoinLength | EnumerableExtension.cs:14-19 | For n ≥ 1 elements, the length is the sum of the element lengths plus (n-1)·\|delim\|. |
| EnumerableExtension.JoinSnoc | EnumerableExtension.cs:14-19 | Appending an element extends the result by one delimiter and that element. |
| EnumerableExtension.IndexOf | EnumerableExtension.cs:31-39 | The result lies in [-1, Count). If it is not -1, the predicate holds there and at no earlier index. It is -1 exactly when no element satisfies the predicate. |
| EnumerableExtension.Descendants | EnumerableExtension.cs:23-29 | The recursive loop returns the list followed by the descendants of each item's children, in list order. |
| EnumerableExtension.DescendantsLength | EnumerableExtension.cs:23-29 | The result's length is the forest's size, the number of items in the list and beneath them, and it is at least the list's length. |
| EnumerableExtension.DescendantsOfLeaves | EnumerableExtension.cs:23-29 | When no item has children, the result is the list itself. |
| EnumerableExtension.DescendantsClosed | EnumerableExtension.cs:23-29 | The result is closed under the child selector. |
| DBCode.ToCode | DBCodeAttribute.cs:26-32 | The result is the code of the first coded field, in declaration order, whose value matches, and null when none does. |
| DBCode.ToEnum | DBCodeAttribute.cs:41-51 | The result is the value of the first field whose code matches, and default(T) = 0 when none does. |
| DBCode.ToCodeOfField | DBCodeAttribute.cs:26-32 | On a well-coded enum, the code of a field's value is that field's code. |
| DBCode.ToEnumOfField | DBCodeAttribute.cs:41-51 | On a well-coded enum, the value of a field's code is that field's value. |
| DBCode.EnumCodeRoundTrip | DBCodeAttribute.cs:21-51 | On a well-coded enum, ToEnum(ToCode(e)) == e for every member e. |
| DBCode.CodeEnumRoundTrip | DBCodeAttribute.cs:21-51 | On a well-coded enum, ToCode(ToEnum(c)) == c for every code in use. |

## Left out

- Real threading: `Thread` creation and scheduling, the blocking of `Join`, `ManualResetEvent`/`WaitAny` timing, and cross-thread visibility of the `volatile` interval. The owner's calls and the wait outcomes come from the tick sequence instead. The owner's calls are applied only at the thread's looks at the latch.
- Threading.ThreadBase.Run: a run is finite. When the ticks run out, the method reports that the thread has not finished.
- Exceptions thrown by `OnStart`, `OnStop` or `WriteLineToLog`: the hooks are empty virtual methods, and only an `OnProcess` throw is modelled.
- The thread's `Name` is stored but never read by the model. `WriteLineToLog`'s console output is a `Logged` event that keeps only where the exception came from.
- The unexpected-stop event named in the header of ThreadBase.cs has no code, so there is nothing to model.
- Restarting a terminated worker: Thread.Start throws. `Start` models this as `started == false`, with the latch already cleared.
- Timer: `DateTime.Now` and the Stopwatch timestamp are parameters.
- Timer.Stopwatch: the frequency is taken as 10^7 ticks per second, the same unit as DateTime ticks. Its timestamps are assumed not to go back.
- Timer.Timeout.HasTimedOut: `TotalMilliseconds` is a `double`, and its rounding is not modelled. The model truncates the exact quotient ticks / 10000. That agrees with truncating the `double` for spans below 2^39 ms, about 17 years. There the tick count converts to `double` exactly, and half a unit in the last place of the quotient is below 0.0001 ms. Longer spans can round up to the next millisecond, for example 10000·2^40 + 9999 ticks.
- `ShowToolTip` and the tooltip each failing validator shows: this is WinForms UI.
- The range-checking `ValidateText` overload (Validation.cs:139-157): it compares `double` values.
- Validation: `double`/`Int32`/`UInt32.TryParse`, `Char.IsDigit` and the e-mail regular expression are parameters. Their exact grammars belong to the .NET library.
- Validation.ValidateText: `ToLower` uses the current culture, but the model lowers ASCII letters only. So the model assumes a culture that lowers ASCII letters to ASCII letters. Under tr-TR, "Int32" and "UInt32" lower to "ınt32" and "uınt32". They then match no case of the switch, and the call throws (Validation.cs:57, 80-82). That behaviour is not modelled.
- StringExtension.SafeSubString: one Dafny `char` stands for one UTF-16 code unit. .NET's `Length` and `Substring` count UTF-16 units, but a Dafny string counts Unicode scalar values. Text outside the Basic Multilingual Plane (surrogate pairs) is therefore not modelled. In .NET, `"😀".SafeSubString(1, 5)` cuts the pair and returns a lone surrogate. The lemmas about SafeSubString count the same way.
- Validation.ValidateTextLength: length is counted in Dafny `char`s, one per UTF-16 code unit. Text with surrogate pairs is not modelled; .NET counts such a character as 2 against the maximum length. The same holds for the length rule of the phone and e-mail validators.
- ThreadingProperties.FinishNeedsStop: the ticks carry no owner `Start`. In the source, a `Start` on a running worker first resets the latch and only then throws from `Thread.Start` (ThreadBase.cs:90-91). So `Stop(); Start()` during a run loses the stop, and the loop never sees it. The lemma's "never cleared" holds only for the owner calls the ticks model.
- StringExtension.ContainsNoCase: `InvariantCultureIgnoreCase` comparison is modelled as a character-wise fold followed by ordinal search. Linguistic comparisons that change lengths are not captured.
- EnumerableExtension.ToCSVString: the elements are already strings, so `ToString` is the identity. A null list, element or delimiter, which throws, is not modelled.
- EnumerableExtension.IndexOf: the predicate is a total function and never throws. A null list, whose `Count` throws NullReferenceException (EnumerableExtension.cs:33), is not modelled.
- EnumerableExtension.Descendants: the child selector is modelled by the item's own `children`. The tree is finite, because a cyclic selector makes the source recurse forever. A null list or a null result of the selector, for which `new List<T>` throws ArgumentNullException (EnumerableExtension.cs:25, 27), is not modelled.
- DBCode: reflection over the enum type is replaced by the table of its members. The instance field `value__` that `GetFields` also returns is left out: it carries no `DBCodeAttribute`, so neither query selects it. The model assumes `GetFields` returns the fields in declaration order, which .NET does not guarantee. It also assumes at most one `DBCodeAttribute` per field, the default for custom attributes. `Enum.Parse` of the found name is taken to give that field's value.
- The other files of the library are outside this model: WebBrowserAdv.cs (browser automation), ReflectionExtension.cs (reflection), MathExtension.cs (floating point), Converter.cs and StringBuilderExtension.cs (library wrappers), MemoryCacheExtension.cs (System.Runtime.Caching), QuestionForm.cs and ControlExtension.cs (WinForms).
