# simple_shell in Dafny

A model of simple_shell, a small UNIX command interpreter in C: the loop of `hsh`, which
prints a prompt, reads a line, splits it into commands on `;`, `&&` and `||`, replaces
aliases and the variables `$?` and `$$` and the environment variables, strips comments,
runs a built-in (`exit`, `env`, `help`, `history`, `setenv`, `unsetenv`, `cd`, `alias`)
or finds the program on `PATH` and forks it, and keeps a history file. The model also
covers the helpers this rests on: the C string functions, number conversion, the
buffered output to standard output, standard error and other descriptors, the singly
linked lists of the environment, the history and the aliases, and the buffered line
reader.

One module per C file (`shell_utilities.c` is split in two, ShellUtilities and
InfoSetup, so that tokenising does not import the session setup). A C string is a
`seq<char>` view of its memory from the pointer to the end of the allocation; `CStr`
is the part before the first NUL. The session record `info_t` is the class
`Base.Info`, whose three lists are `ListHead` objects holding a `seq<Node>`. The static
write buffers of `_putchar`, `_eputchar` and `_putfd` are `OutputBuffers.Writer`
objects, whose ghost log records every byte handed to `write()`. Arrays the C code
fills in place (the read buffer, the path buffer, `_memset` and the string copies)
stay arrays; list operations are functions on the node sequence.

Everything outside the process is a parameter or an oracle object: the bytes each
`read()` returns (`InputReader.Source`), whether `stat()` finds a mode with the
S_IFREG bit at a path (`regular` in PathResolver), `isatty`, `getpid`, `getcwd`, the outcome of `fork` and `wait`
(`ShellLoop.Processes`), the descriptor `open` returns when the history is saved, and
the history file's contents when it is loaded. Where the C program does something
without defined behaviour (a dereference of a pointer that is not one, a write past
the static buffer of find_path, a list counter past its C type, a `free` of a pointer
into the middle of a block), the model reports it as a `fault`, `overflow` or `crashed`
flag, each stated exactly by the condition that raises it, and `hsh` ends with
`Undefined`; every contract says what happens on every other path. Two such cases go
unreported, both in _getline and both listed under "Left out": a read past the end of
its static buffer, and the use of the uninitialised block it returns when the line end
lies before the current index.

## Model

| member | source | states |
|---|---|---|
| Base.Info.constructor | includes/shell.h:102-104 | INFO_INIT: every field NULL, 0, CMD_NORM or an empty list, with readfd as main sets it |
| OutputBuffers.Writer.Put | string_operations/string_manipulation2.c:78-91 | on BUF_FLUSH or a full buffer the pending bytes go to one write() on fd and the index resets; a character is then buffered; the bytes passed so far grow by exactly that character; always 1 |
| OutputBuffers.Console.constructor | error_handling/error_reporter.c:27-62 | the three writers start with zeroed statics and nothing emitted |
| StringManipulation2.StrCpy | string_operations/string_manipulation2.c:9-22 | dest is untouched for NULL src or src == dest; otherwise it becomes CpyResult (src's string and a terminator) |
| StringManipulation2.CpyResultString | string_operations/string_manipulation2.c:9-22 | the string _strcpy leaves in dest is src's string |
| StringManipulation2.StrDup | string_operations/string_manipulation2.c:29-52 | NULL exactly for NULL; otherwise a fresh block of length + 1 bytes holding the same string |
| StringManipulation2.Puts | string_operations/string_manipulation2.c:59-70 | standard output receives the string's characters, nothing for NULL |
| StringManipulation2.PutChar | string_operations/string_manipulation2.c:78-91 | standard output receives the character, nothing for BUF_FLUSH; a write(1, ...) of the pending bytes happens exactly on BUF_FLUSH or a full buffer; after BUF_FLUSH nothing is pending; always 1 |
| MemoryAllocators.BFree | memory_utils/memory_allocators.c:8-17 | 1 exactly when the slot held a block, 0 for a NULL slot or NULL block, and the slot is NULL afterwards |
| MemoryAllocators.MemSet | memory_utils/memory_allocators.c:26-33 | the first n bytes become b and the rest are untouched |
| MemoryAllocators.Realloc | memory_utils/memory_allocators.c:59-80 | NULL ptr: a fresh block of the new size; size 0: NULL; same size: ptr itself; otherwise a fresh block whose first min(old, new) bytes are copied |
| StringManipulation1.CLen | string_operations/string_manipulation1.c:8-18 | the length of a C string: no byte before it is NUL and a NUL (or the end of the memory) stands at it |
| StringManipulation1.StrLen | string_operations/string_manipulation1.c:8-18 | 0 for NULL; otherwise the number of bytes before the terminator, none of them NUL |
| StringManipulation1.StrCmp | string_operations/string_manipulation1.c:26-39 | 0 exactly when the strings are equal; -1 or 1 when one is a proper prefix of the other; otherwise the difference of the first pair of characters that differ |
| StringManipulation1.CompareResultCons | string_operations/string_manipulation1.c:28-34 | equal first characters leave the comparison to the rest of the strings |
| StringManipulation1.StartsWith | string_operations/string_manipulation1.c:48-64 | a result exactly when the needle's string is a prefix of the haystack's, and then it is the index just after the needle |
| StringManipulation1.StrChr | string_operations/string_manipulation1.c:155-163 | the first index holding c, at or before the terminator, so NUL finds the terminator; none exactly when c is not NUL and not in the string |
| StringManipulation1.StrChrIs | string_operations/string_manipulation1.c:155-163 | c is found at p when it stands there with no earlier c or NUL |
| StringManipulation1.LastIndexOf | string_operations/string_manipulation1.c:178-184 | the last index holding c, with no c after it; none exactly when c does not occur |
| StringManipulation1.StrRChr | string_operations/string_manipulation1.c:172-189 | NULL for NULL; the terminator for NUL; otherwise the last c before the terminator, or none when the string has no c |
| StringManipulation1.StrCat | string_operations/string_manipulation1.c:74-84 | dest's memory becomes CatResult: its string, then src's, a terminator, and its remaining bytes untouched |
| StringManipulation1.CatResultString | string_operations/string_manipulation1.c:74-84 | after _strcat the string in dest is the concatenation of the two strings, and the memory keeps its size |
| StringManipulation1.StrNCpy | string_operations/string_manipulation1.c:97-118 | dest's memory becomes NCpyResult: at most n - 1 characters of src, NUL padding up to index n - 1, the rest untouched; nothing for n <= 0 |
| StringManipulation1.NCpyResultString | string_operations/string_manipulation1.c:97-118 | the string _strncpy leaves is src's string cut to n - 1 characters |
| StringManipulation1.StrNCat | string_operations/string_manipulation1.c:128-146 | dest's memory becomes NCatResult: at most n characters of src after its string, and a terminator only when fewer than n were copied |
| StringManipulation1.NCatResultString | string_operations/string_manipulation1.c:128-146 | when src's string is shorter than n, the string left is the concatenation |
| ErrorReporter.EPuts | error_handling/error_reporter.c:8-19 | standard error receives the string's characters, nothing for NULL |
| ErrorReporter.EPutChar | error_handling/error_reporter.c:27-40 | standard error receives the character, nothing for BUF_FLUSH; a write(2, ...) of the pending bytes happens exactly on BUF_FLUSH or a full buffer; always 1 |
| ErrorReporter.PutFd | error_handling/error_reporter.c:49-62 | the shared _putfd buffer receives the character; on BUF_FLUSH or a full buffer its pending bytes, whichever descriptor they were meant for, go to one write() on fd, the only write() made; always 1 |
| ErrorReporter.PutsFd | error_handling/error_reporter.c:70-81 | the string's characters go through _putfd, every write() it makes is on fd, and the count returned is the string's length (0 for NULL) |
| StringConverters.Alphabet | memory_utils/string_converters.c:27 | the digit table has 16 characters, lower case under CONVERT_LOWERCASE |
| StringConverters.SignificantLength | memory_utils/string_converters.c:31-34 | a number below base^k has at most k digits |
| StringConverters.NumberTextIntLength | memory_utils/string_converters.c:13-39 | the decimal text of any int has at most 11 characters, so it fits the 50-byte buffer |
| StringConverters.SignificantChars | memory_utils/string_converters.c:31-34 | every digit comes from the first base characters of the table |
| StringConverters.FillDigits | memory_utils/string_converters.c:31-34 | the do-while loop writes exactly the digits of n, most significant first, ending at the end index ("0" for 0) |
| StringConverters.ConvertNumber | memory_utils/string_converters.c:13-39 | the text is NumberText: '-' for a signed negative number, then the digits of its magnitude (of its unsigned value under CONVERT_UNSIGNED) |
| ErrorUtilities.ErrAtoi | error_handling/error_utilities.c:9-29 | after one optional '+', the decimal value when every character is a digit and the value does not exceed INT_MAX, otherwise -1 (0 for an empty string) |
| ErrorUtilities.DecValuePrefix | error_handling/error_utilities.c:16-24 | the value of a digit string's prefix never exceeds the value of the whole |
| ErrorUtilities.OverflowRejects | error_handling/error_utilities.c:22-23 | once a prefix exceeds INT_MAX the whole string is rejected, so the early return agrees with the specification |
| ErrorUtilities.DecValueOfDigits | memory_utils/string_converters.c:31-34 | the decimal digits of n are digits and read back as n |
| ErrorUtilities.ErrAtoiRoundTrip | error_handling/error_utilities.c:9-29 | _erratoi of the decimal text convert_number gives for any non-negative int is that int |
| ErrorUtilities.PutTo | error_handling/error_utilities.c:57-62 | print_d's character function: standard error for STDERR_FILENO, standard output otherwise, and the other stream is untouched |
| ErrorUtilities.PrintD | error_handling/error_utilities.c:55-88 | prints the decimal text of the int (as convert_number writes it) on the chosen stream and returns its length |
| ErrorUtilities.PutLeadingDigits | error_handling/error_utilities.c:75-83 | the power-of-ten loop prints the digits of the number without its last one and leaves the last digit in current |
| ErrorUtilities.DecimalText | memory_utils/string_converters.c:13-39 | the decimal text of an int is a '-' for a negative number followed by the digits of its magnitude |
| ErrorUtilities.PrintError | error_handling/error_utilities.c:38-47 | standard error receives "fname: line: argv[0]: estr" with the line number as the int print_d receives; standard output is untouched |
| ErrorUtilities.FirstCommentFrom | error_handling/error_utilities.c:101-102 | the first index from k that holds a '#' at the start or after a space, before the terminator; none when there is none |
| ErrorUtilities.CommentsRemovedString | error_handling/error_utilities.c:97-107 | at most one byte changes, a comment '#' that becomes NUL; the string is cut at the first comment start, or unchanged without one |
| ErrorUtilities.CommentsRemovedIdempotent | error_handling/error_utilities.c:97-107 | removing comments twice is removing them once |
| ErrorUtilities.RemoveComments | error_handling/error_utilities.c:97-107 | the buffer becomes CommentsRemoved of its old contents |
| ShellUtilities.IsDelimiter | shell_core/shell_utilities.c:19-25 | true exactly when c is not NUL and occurs in the delimiter string |
| ShellUtilities.IsAlphaChar | shell_core/shell_utilities.c:32-38 | true exactly for the codes of 'A'-'Z' and 'a'-'z' |
| ShellUtilities.FirstDigit | shell_core/shell_utilities.c:50-60 | the index of the first digit, with no digit before it (the length when there is none) |
| ShellUtilities.RunEnd | shell_core/shell_utilities.c:55-62 | the end of the run of digits starting at p: all digits up to it and a non-digit (or the end) at it |
| ShellUtilities.ScanMeaning | shell_core/shell_utilities.c:50-63 | the scan's sign is the parity of the '-' characters read up to and including the one that ends the first digit run, and its value is that run's value modulo 2^32 |
| ShellUtilities.StringToInt | shell_core/shell_utilities.c:45-71 | the result is StringToIntSpec: the first digit run modulo 2^32, negated in unsigned arithmetic for an odd number of '-', read back as an int |
| ShellUtilities.StringToIntSigned | shell_core/shell_utilities.c:45-71 | an optional '-' and a run of digits in range give exactly that signed value |
| ShellUtilities.StringToIntRoundTrip | shell_core/shell_utilities.c:45-71 | string_to_int of the decimal text of any int is that int |
| StringTokenization.RunLen | string_operations/string_tokenization.c:39-40 | the length of the run of non-delimiters at i: none inside it, and a delimiter (or the end) after it |
| StringTokenization.WordsFrom | string_operations/string_tokenization.c:34-52 | every word is nonempty and free of delimiters |
| StringTokenization.WordCount | string_operations/string_tokenization.c:21-23 | the number of words equals the number of word ends the counting loop sees |
| StringTokenization.WordsKeepText | string_operations/string_tokenization.c:10-55 | the words, concatenated, are exactly the non-delimiter characters in order |
| StringTokenization.StrTowWords | string_operations/string_tokenization.c:10-55 | NULL for a NULL or empty string; a non-NULL result has at least one word, each nonempty and delimiter-free, together spelling out the non-delimiters in order; a string yields NULL only when it has no non-delimiter |
| StringTokenization.CountWords | string_operations/string_tokenization.c:21-23 | the count of the first loop is the number of words |
| StringTokenization.SkipDelimiters | string_operations/string_tokenization.c:36-37 | skipping leading delimiters loses no word and stops at a non-delimiter or the end |
| StringTokenization.RunLength | string_operations/string_tokenization.c:39-40 | the length loop measures RunLen |
| StringTokenization.CopyWord | string_operations/string_tokenization.c:49-51 | the k bytes at i are copied |
| StringTokenization.NextWord | string_operations/string_tokenization.c:36-51 | one round of the filling loop hands out the next word and moves past it |
| StringTokenization.StrTow | string_operations/string_tokenization.c:10-55 | the result is StrTowSpec: NULL for NULL, empty or word-free strings (delimiters " " for NULL d), otherwise the words in order |
| StringTokenization.Cut | string_operations/string_tokenization.c:89-90 | the index of the first d, with no d before it (the length when there is none) |
| StringTokenization.FieldsCount | string_operations/string_tokenization.c:75-78 | strtow2's count from position i is the number of d after position i, plus one unless the string ends in d |
| StringTokenization.StrTow2Shape | string_operations/string_tokenization.c:63-105 | NULL exactly for the string consisting of d alone; otherwise the first entry is the text before the first d and every later entry is empty, because the skipping loop never advances |
| StringTokenization.StrTow2 | string_operations/string_tokenization.c:63-105 | the result is StrTow2Spec: the count as written, the text before the first d, then empty strings up to the count |
| ListOperations.RemoveAt | linked_lists/list_operations.c:113-144 | removing position k of a list keeps the nodes before k, shifts the ones after it down by one and shortens the list by one; an index out of range leaves the list as it is |
| ListOperations.RemoveUndoesAdd | linked_lists/list_operations.c:10-144 | deleting index 0 after add_node, or the last index after add_node_end, gives back the original list |
| ListOperations.RemoveAtMultiset | linked_lists/list_operations.c:113-144 | deletion removes exactly the one node at the index and no other |
| ListOperations.AddNode | linked_lists/list_operations.c:10-48 | with no head pointer nothing happens and NULL is returned; otherwise the new node (its number and a copy of the string) becomes the first of the list |
| ListOperations.AddNodeEnd | linked_lists/list_operations.c:57-105 | with no head pointer nothing happens and NULL is returned; otherwise the new node becomes the last of the list |
| ListOperations.DeleteNodeAtIndex | linked_lists/list_operations.c:113-144 | returns 1 exactly when the index is within the list, and the list loses that node; otherwise 0 and the list is unchanged |
| ListOperations.FreeList | linked_lists/list_operations.c:151-167 | the list is empty afterwards |
| ListUtilities.ListLen | linked_lists/list_utilities.c:8-18 | the number of nodes |
| ListUtilities.Strings | linked_lists/list_utilities.c:40-51 | one string per node, each the node's string |
| ListUtilities.ListToStrings | linked_lists/list_utilities.c:26-54 | NULL exactly for the empty list; otherwise the copies of the nodes' strings, in list order |
| ListUtilities.ListTextAppend | linked_lists/list_utilities.c:62-77 | printing two lists one after the other prints the same as printing their concatenation |
| ListUtilities.NumberTextNoNul | linked_lists/list_utilities.c:68 | the decimal text of a node number holds no NUL, so _puts prints all of it |
| ListUtilities.PrintNode | linked_lists/list_utilities.c:68-72 | one node is printed as its decimal number, ": ", its string and a newline |
| ListUtilities.PrintList | linked_lists/list_utilities.c:62-77 | prints every node's line in order and returns the number of nodes |
| ListUtilities.PrintListStr | linked_lists/list_utilities.c:84-96 | prints every node's string on a line of its own, in order, and returns the number of nodes |
| ListUtilities.NodeStartsWith | linked_lists/list_utilities.c:106-118 | the first node from i on whose string starts with prefix (followed by c unless c is -1); none when no node matches |
| ListUtilities.GetNodeIndex | linked_lists/list_utilities.c:126-138 | the index of the node when it is in the list, and -1 exactly when it is not |
| VariableExpansion.AfterEq | variables/variable_expansion.c:29 | the value read after a node's '=' is a C string |
| VariableExpansion.ValueOfEntry | variables/variable_expansion.c:19-29 | in a list of NAME=value strings, the first entry for NAME gives the value replace_alias and replace_vars use |
| VariableExpansion.ValueOfMissing | variables/variable_expansion.c:19-21 | with no entry NAME=... the lookup finds nothing |
| VariableExpansion.AliasValue | variables/variable_expansion.c:19-33 | one round of replace_alias: the value of the first alias node for the word, or none |
| VariableExpansion.EqualsAfterName | variables/variable_expansion.c:25-27 | a node found for a word always holds a '=', so the "no '='" return cannot happen |
| VariableExpansion.RoundsStep | variables/variable_expansion.c:16-34 | each round replaces argv[0] by its alias value and leaves one round fewer |
| VariableExpansion.RoundsStop | variables/variable_expansion.c:19-21 | when replace_alias returns 0, argv[0] is left at a word that is no alias |
| VariableExpansion.RoundsCycle | variables/variable_expansion.c:16-35 | a word that is its own alias is rewritten to itself every round and the result is 1 |
| VariableExpansion.SelfAliasReturnsOne | variables/variable_expansion.c:16-35 | for `alias a=a`, argv[0] stays "a" and replace_alias returns 1 |
| VariableExpansion.AliasToPlainWord | variables/variable_expansion.c:16-35 | an alias whose value is no alias name: argv[0] is rewritten once to the value and replace_alias returns 0 though it replaced it |
| VariableExpansion.ReplaceAlias | variables/variable_expansion.c:9-35 | argv[0] becomes the word left after at most ten alias rounds, the other tokens are untouched, and the result is 1 only when all ten rounds found an alias |
| VariableExpansion.ReplaceString | variables/variable_expansion.c:90-95 | the slot is replaced by the new string and the result is always 1 |
| VariableExpansion.HasVarTokenStep | variables/variable_expansion.c:50-55 | the replaced flag after one more token is set exactly when it was set or that token is a variable token |
| VariableExpansion.ReplaceVars | variables/variable_expansion.c:43-81 | argv keeps its length, every token is replaced by its expansion, and the result is 1 exactly when some token starts with '$' followed by something |
| VariableExpansion.VarText | variables/variable_expansion.c:56-78 | the replacement for a variable token is its expansion |
| VariableExpansion.SpecialVariables | variables/variable_expansion.c:56-65 | "$?" expands to the decimal status and "$$" to the decimal process id |
| VariableExpansion.EnvironmentVariable | variables/variable_expansion.c:66-72 | "$NAME" expands to the value of the first environment entry NAME=value |
| VariableExpansion.MissingVariable | variables/variable_expansion.c:73-77 | "$NAME" expands to the empty string when the environment has no entry for NAME |
| VariableExpansion.NamedVariable | variables/variable_expansion.c:51-66 | "$" followed by a name other than "?" and "$" is a variable token and neither special variable |
| VariableExpansion.PlainTokensKept | variables/variable_expansion.c:51-52 | a lone "$", an empty token and one not starting with '$' are kept as they are |
| CommandChaining.DelimType | variables/command_chaining.c:14-32 | the kind of delimiter at j is one of the four chain types, and it is CMD_NORM when j is past the buffer |
| CommandChaining.DelimTypeChars | variables/command_chaining.c:14-32 | exactly ";" gives CMD_CHAIN, "||" CMD_OR and "&&" CMD_AND; a lone '|' or '&' is no delimiter |
| CommandChaining.IsChain | variables/command_chaining.c:10-35 | at a delimiter: returns 1, writes a NUL over its first character, moves the position to its last character and records its type; elsewhere returns 0 and changes nothing |
| CommandChaining.SkipsMeaning | variables/command_chaining.c:51-66 | after "&&" the next segment runs exactly when the status is 0, after "\|\|" exactly when it is not, after ';' or nothing always |
| CommandChaining.CheckChain | variables/command_chaining.c:47-69 | a suppressed segment gets a NUL at its start and the position moves to the end of the line; otherwise neither the buffer nor the position changes |
| CommandChaining.NextDelim | variables/command_chaining.c:14-32 | the first delimiter at or after j, or len when none, with no delimiter between |
| CommandChaining.SuppressedSegmentEmpty | variables/command_chaining.c:55 | a segment with a NUL written at its start reads as the empty command |
| HistoryManager.GetHistoryFile | history/history_manager.c:9-27 | the path is HOME, '/' and ".simple_shell_history", free of NUL, and NULL exactly when HOME is unset |
| HistoryManager.JoinedPath | history/history_manager.c:22-25 | copying HOME and appending "/" and the file name builds exactly their concatenation, with no NUL inside |
| HistoryManager.BuildHistoryList | history/history_manager.c:124-135 | the entry's string, numbered linecount, is appended at the end of the history, and the result is 0 |
| HistoryManager.RenumberHistory | history/history_manager.c:143-154 | the nodes keep their strings and are numbered 0, 1, ... in order; histcount and the result are their count |
| HistoryManager.Dropped | history/history_manager.c:110-111 | the trimming loop deletes no more entries than were read |
| HistoryManager.ReadHistory | history/history_manager.c:66-114 | without a path, an existing file or two bytes of content: 0 and nothing changes; otherwise the file's lines are appended, the oldest trimmed, the list renumbered, and the result is the new histcount, the list length |
| HistoryManager.ParseEntries | history/history_manager.c:97-105 | each newline ends an entry, a last line without newline is one too, and the entries are appended numbered from 0; the count returned is their number |
| HistoryManager.LastEntry | history/history_manager.c:104-105 | the text after the last newline, read from the NUL-terminated buffer, is the last line |
| HistoryManager.NumberedSnoc | history/history_manager.c:101 | one more entry is appended with the next line number |
| HistoryManager.Load | history/history_manager.c:87-91 | the buffer holds the file's bytes followed by a NUL |
| HistoryManager.EntryAt | history/history_manager.c:98-102 | the NUL written over a newline makes the line since last read as its own string, and the rest of the buffer is untouched |
| HistoryManager.WriteHistory | history/history_manager.c:35-59 | -1 without a path or when open fails, writing nothing; otherwise every entry's string and a newline reach the file in order, every write() goes to the descriptor open returned, the buffer is flushed, and the result is 1 |
| HistoryManager.WriteEntries | history/history_manager.c:51-55 | the loop writes every node's string and a newline, in order, with every write() on the history descriptor |
| HistoryManager.WriteEntry | history/history_manager.c:53-54 | one node's string and a newline, with every write() on the history descriptor |
| HistoryManager.ListStrTextCons | history/history_manager.c:51-55 | the file text of a history is its first entry's line followed by the rest's |
| HistoryManager.EntriesLine | history/history_manager.c:97-103 | scanning a line up to its newline yields that line as the next entry |
| HistoryManager.EntriesShift | history/history_manager.c:97-103 | text before the scan position does not change the entries read after it |
| HistoryManager.EntriesOfListStrText | history/history_manager.c:35-114 | the file write_history produces parses back into the same strings, provided no entry holds a newline |
| HistoryManager.EntriesOfLine | history/history_manager.c:97-103 | a line without newline followed by its newline is the first entry |
| HistoryManager.KeptNewest | history/history_manager.c:104-113 | reading n entries into an empty history keeps the newest Min(n, HIST_MAX - 1) of them in order, numbered from 0 |
| HistoryManager.ListStrTextLength | history/history_manager.c:51-55 | the history file holds at least one byte, its newline, per entry, and a single entry's file is its string and a newline |
| HistoryManager.ReadAfterWrite | history/history_manager.c:35-114 | writing a history and reading it back through read_history's gates at the next start keeps its newest Min(n, HIST_MAX - 1) strings in order, numbered from 0; a history of one empty entry alone comes back empty |
| HistoryManager.SingleEmptyEntryLost | history/history_manager.c:83-84 | a history of one empty entry is written as "\n", which read_history skips as shorter than two bytes, although its lines would parse back into that entry |
| EnvManager.Arg | environment/env_manager.c:78-79 | argv[i] exists exactly for an index within the vector; past it is the terminating NULL |
| EnvManager.EntryValue | environment/env_manager.c:30-37 | an entry yields a value exactly when it starts with name and something follows; the value is that rest, nonempty and free of NUL |
| EnvManager.EnvValue | environment/env_manager.c:28-40 | a value found is nonempty and free of NUL |
| EnvManager.EnvValueAt | environment/env_manager.c:28-40 | the first entry that yields a value decides the result |
| EnvManager.EnvValueNone | environment/env_manager.c:28-40 | without an entry that yields a value, the result is NULL |
| EnvManager.GetEnv | environment/env_manager.c:22-41 | the value of the first entry starting with name and not ending there, or NULL |
| EnvManager.EntryNoNul | environment/env_manager.c:174-179 | the "key=value" string _setenv builds is a C string with no NUL inside |
| EnvManager.JoinPair | environment/env_manager.c:174-179 | the block holds the bytes of the key, the separator and the bytes of the value |
| EnvManager.SetEnv | environment/env_manager.c:164-199 | 0 and no change for a NULL key or value; otherwise "key=value" replaces the first entry of key or is appended, env_changed becomes 1, and the result is 0 |
| EnvManager.EntryFound | environment/env_manager.c:22-41 | the entry _setenv writes is the one _getenv finds for "key=", yielding the value |
| EnvManager.ValueMeansEntry | environment/env_manager.c:30-34 | an entry yielding a value for "key=" is an entry of key in _setenv's sense |
| EnvManager.SetThenGet | environment/env_manager.c:22-199 | after _setenv(key, value) with a nonempty value, _getenv("key=") yields that value |
| EnvManager.SetEnvShape | environment/env_manager.c:181-197 | _setenv either rewrites one entry of key in place or appends one, keeping every other node where it was |
| EnvManager.UnsetListMeaning | environment/env_manager.c:130-153 | after _unsetenv no entry of key remains, only nodes of the old list remain, and a list without an entry of key is unchanged |
| EnvManager.UnsetListKeeps | environment/env_manager.c:139-151 | what remains are nodes of the old list, none an entry of key |
| EnvManager.UnsetListNoop | environment/env_manager.c:139-151 | a list without an entry of key is left as it is |
| EnvManager.UnsetCons | environment/env_manager.c:139-151 | removing the entries of key from a list with a first node treats that node, then the rest |
| EnvManager.UnsetAfterDelete | environment/env_manager.c:141-147 | deleting one entry of key and restarting from the head ends where removing all of them ends |
| EnvManager.UnsetEnv | environment/env_manager.c:130-153 | 0 and no change for an empty list or NULL key; otherwise every entry of key is deleted, env_changed is 1 when one was, and the result is env_changed |
| EnvManager.DeleteEntry | environment/env_manager.c:144-146 | one deletion removes exactly one entry of key, returns 1, and leaves the same list once all entries of key are removed |
| EnvManager.UnsetThenGet | environment/env_manager.c:22-153 | after _unsetenv(key), _getenv("key=") finds nothing |
| EnvManager.MySetEnv | environment/env_manager.c:50-61 | with other than two arguments, the usage message goes to standard error and nothing changes; otherwise the variable is set; the result is 1 in both cases |
| EnvManager.Complain | environment/env_manager.c:54 | the whole message goes to standard error |
| EnvManager.MyUnsetEnv | environment/env_manager.c:69-82 | with no argument, the message goes to standard error, the list and env_changed stay and the result is 1; otherwise the list is what _unsetenv for argv[1] up to argv[argc] leaves in turn (UnsetArgs: an empty list or a NULL argument changes nothing), env_changed is 1 when any call deleted an entry and keeps its value otherwise, no named variable has an entry left, and the result is 0 |
| EnvManager.UnsetArgsMeaning | environment/env_manager.c:78-79 | after the calls for argv[i] up to argv[n] no named variable has an entry, only nodes of the old list remain, and some call deleted an entry exactly when the list got shorter |
| EnvManager.UnsetOneMeaning | environment/env_manager.c:130-153 | one _unsetenv call keeps only old nodes, leaves no entry of its key, and deletes something exactly when the list gets shorter |
| EnvManager.UnsetListShrinks | environment/env_manager.c:139-151 | a list holding an entry of key gets shorter |
| EnvManager.AbsentStaysAbsent | environment/env_manager.c:139-151 | nodes taken from a list without an entry of key hold none either |
| EnvManager.EnvList | environment/env_manager.c:95-101 | one node per environ string, in order, each numbered 0 |
| EnvManager.PopulateEnvList | environment/env_manager.c:90-104 | the environment list becomes the environ strings in order, and the result is 0 |
| EnvManager.GetEnviron | environment/env_manager.c:112-121 | the array is rebuilt from the list (NULL for an empty list) when there was none or the list changed, which clears env_changed; otherwise the old array is returned |
| EnvManager.MyEnv | environment/env_manager.c:9-13 | every entry is printed on its own line, in order, and the result is 0 |
| PathResolver.PathBuffer.constructor | environment/path_resolver.c:34 | the static buffer of dup_chars has its 1024 bytes |
| PathResolver.WithoutColons | environment/path_resolver.c:37-39 | dropping the ':' characters never lengthens the text |
| PathResolver.WithoutColonsAppend | environment/path_resolver.c:37-39 | dropping colons from two texts one after the other is the same as from their concatenation |
| PathResolver.WithoutColonsKeeps | environment/path_resolver.c:37-39 | a text without ':' is copied whole |
| PathResolver.DupChars | environment/path_resolver.c:32-42 | the buffer holds the characters of the range other than ':', then a terminator, and the bytes after it are untouched |
| PathResolver.CopyKept | environment/path_resolver.c:37-39 | the copying loop writes the kept characters at the front and nothing past them; k is where the terminator goes |
| PathResolver.DupStep | environment/path_resolver.c:38-39 | one more character of the range is kept exactly when it is not ':' |
| PathResolver.DupBound | environment/path_resolver.c:37-39 | a prefix of the range keeps no more characters than the whole range, so the loop's writes stay within the bound the whole range needs |
| PathResolver.ColonAt | environment/path_resolver.c:69 | the first ':' of a text, with none before it |
| PathResolver.Split | environment/path_resolver.c:67-89 | a PATH value has at least one entry (an empty value has one empty entry) |
| PathResolver.SplitJoin | environment/path_resolver.c:67-89 | entries without ':', joined with ':', split back into the same entries |
| PathResolver.SplitAtColon | environment/path_resolver.c:69-86 | the first ':' cuts the value into its first entry and the rest |
| PathResolver.FirstCmdMeaning | environment/path_resolver.c:67-90 | the search yields the candidate of an entry exactly when it is a regular file and no earlier entry's candidate is one, and NULL exactly when no candidate is |
| PathResolver.SearchFromIsFirst | environment/path_resolver.c:67-90 | the scanning loop tries exactly the entries of the PATH value, left to right, and it overruns exactly when the entries in order reach one whose candidate does not fit before any candidate is a regular file |
| PathResolver.OverrunsMeaning | environment/path_resolver.c:67-90 | the scan overruns exactly when some entry's candidate does not fit while every entry before it fits and names no regular file |
| PathResolver.FindPath | environment/path_resolver.c:51-91 | overflow exactly when there is a PATH, the "./" shortcut does not answer and the scan reaches an entry whose candidate does not fit the 1024-byte buffer; otherwise NULL without PATH, cmd itself when it is longer than two characters, starts with "./" and is a regular file, else the first entry's candidate that is a regular file, or NULL |
| PathResolver.ScanPath | environment/path_resolver.c:67-90 | overflow exactly when the scan reaches, before a match, an entry whose candidate needs more than the 1024 bytes; otherwise the result is the first candidate over the entries that is a regular file |
| PathResolver.BuildCandidate | environment/path_resolver.c:71-79 | for a candidate that fits the buffer with its terminator, the buffer reads cmd for an empty entry, otherwise the entry, "/" and cmd |
| PathResolver.AppendCommand | environment/path_resolver.c:73-79 | when the result fits the buffer, after an empty entry the buffer reads cmd, otherwise the entry, "/" and cmd |
| PathResolver.WordCharsZero | environment/path_resolver.c:113-116 | a line counts as blank exactly when it holds only spaces, tabs and newlines |
| PathResolver.CountWordChars | environment/path_resolver.c:113-115 | the loop counts the characters of the line that are not blanks |
| PathResolver.FindCmd | environment/path_resolver.c:101-138 | overflow exactly when the line is not blank and find_path overruns on the PATH of the environment, leaving argv[0] as the path, status and standard error untouched; otherwise path is argv[0] unless find_path found the command, and a command found nowhere on a line not starting with a newline sets status 127 and reports "not found"; the deferred line count is taken either way; standard output is untouched |
| PathResolver.Conclude | environment/path_resolver.c:113-137 | after the line count: overflow exactly as CmdOverruns says, with path, status and standard error untouched; otherwise the path, status and error line Resolve's outcome calls for |
| PathResolver.TakeLineCount | environment/path_resolver.c:107-111 | with linecount_flag 1 the line count goes up by one (modulo 2^32) and the flag is cleared; otherwise neither changes |
| PathResolver.Report | environment/path_resolver.c:121-136 | keeps a path that was found; for a command found nowhere sets status 127 and writes the "not found" error line |
| PathResolver.Classify | environment/path_resolver.c:113-137 | overflow exactly when the line is not blank and find_path overruns; otherwise the outcome is Resolve on the line, argv[0], the environment and whether the shell is interactive, and the path is the one find_path found |
| PathResolver.SearchCommand | environment/path_resolver.c:120-137 | overflow exactly when find_path overruns on the PATH value; otherwise the outcome after the blank-line check: found, accepted by is_cmd, not found, or silent for a line starting with a newline |
| PathResolver.EmptyEntryFindsCommand | environment/path_resolver.c:73-74 | an empty PATH entry makes the command's own name a candidate: with PATH ":..." a regular file named like the command is found first |
| PathResolver.NowhereIsNull | environment/path_resolver.c:51-91 | when neither cmd nor any entry's candidate is a regular file, find_path returns NULL |
| PathResolver.LeftmostEntryWins | environment/path_resolver.c:67-90 | with PATH "a:b" and both a/cmd and b/cmd regular files, a/cmd is found |
| PathResolver.UnreachedEntryIgnored | environment/path_resolver.c:80-83 | with PATH "a:long" and a/cmd a regular file that fits, find_path returns a/cmd without overrunning, however long the second entry is |
| PathResolver.FirstEntryTooLong | environment/path_resolver.c:69-79 | a first entry whose candidate does not fit makes find_path overrun its buffer unless the "./" shortcut answers |
| BuiltinExit.ExitDecision | builtins/builtin_exit.c:14-29 | without an argument the code is -1; an argument _erratoi accepts gives a code between 0 and INT_MAX; anything else is an illegal number |
| BuiltinExit.MyExit | builtins/builtin_exit.c:10-30 | an accepted argument (or none) yields -2 with err_num set to the code and nothing written; an illegal number yields 1, status 2 and the "Illegal number: " line with the argument on standard error |
| BuiltinExit.ReportIllegal | builtins/builtin_exit.c:19-22 | status 2, and the error line, the argument and a newline on standard error |
| BuiltinExit.ExitWithNumber | builtins/builtin_exit.c:14-26 | `exit n` with the decimal text of any 0 <= n <= INT_MAX asks to exit with n |
| BuiltinExit.ExitRejectsNegative | builtins/builtin_exit.c:16-23 | a negative argument is an illegal number |
| BuiltinExit.ExitRejectsOverflow | builtins/builtin_exit.c:16-23 | an argument above INT_MAX is an illegal number |
| BuiltinManager.BuiltinIndex | builtins/builtin_manager.c:41-47 | an entry found lies before the first NULL name and its name equals argv[0] as a C string |
| BuiltinManager.FindBuiltin | builtins/builtin_manager.c:11-49 | -1 with nothing changed when argv[0] names no built-in; otherwise line_count goes up by one (modulo 2^32), fault holds exactly when HandlerFaults says the handler reaches undefined behaviour, and without a fault the handler's result is returned; help answers its value and changes neither argv nor the environment; exit never faults and records its code |
| BuiltinManager.LookUp | builtins/builtin_manager.c:41-47 | the loop stops at the first entry whose name equals argv[0], or at the sentinel |
| BuiltinManager.TableShape | builtins/builtin_manager.c:14-23 | the first eight entries carry the built-in names and a handler; a NULL name follows them |
| BuiltinManager.RunHandler | builtins/builtin_manager.c:44-45 | fault exactly when HandlerFaults holds for the handler and the state (history numbers past int, an environment list past 2^32 - 1 nodes, alias list and argv together past it, or an alias listing that meets an alias without '='); otherwise the handler's result is what the built-in returns for its arguments; line_count goes up by one (modulo 2^32) before the call |
| BuiltinManager.BuiltinNames | builtins/builtin_manager.c:14-47 | exactly the eight names before the sentinel are built-ins, each found at its own entry; a prefix or an extension of a name is not one |
| BuiltinManager.NamesAreStrings | builtins/builtin_manager.c:15-22 | each name before the sentinel is its own C string |
| BuiltinManager.FirstNames | builtins/builtin_manager.c:41-47 | a search from entry i finds argv[0] exactly when it is one of the names from i up to the sentinel |
| BuiltinManager.NewlineNamesUnreachable | builtins/builtin_manager.c:23-38 | "exit" followed by a newline is not a built-in, though the table lists it after the sentinel |
| BuiltinHistoryAlias.MyHistory | builtins/builtin_history_alias.c:10-14 | prints the history as "num: str" lines in order, and the result is 0 |
| BuiltinHistoryAlias.UnsetAlias | builtins/builtin_history_alias.c:22-41 | the result is 1 on every path; the first node starting with the name before '=' is deleted and the '=' restored, or, with no such node, "Error: Alias not found" is printed and the '=' stays overwritten by NUL |
| BuiltinHistoryAlias.DeleteByName | builtins/builtin_history_alias.c:32-38 | the first node starting with the name is deleted; with none, the list is unchanged and the complaint is printed |
| BuiltinHistoryAlias.PutNotFound | builtins/builtin_history_alias.c:36 | the complaint goes to standard output |
| BuiltinHistoryAlias.SetAlias | builtins/builtin_history_alias.c:49-61 | 1 without '='; with nothing after '=', unset_alias's effect and result; otherwise unset_alias, then a node holding the argument as unset_alias left it is appended, and the result is 0 |
| BuiltinHistoryAlias.PrintAlias | builtins/builtin_history_alias.c:68-83 | 1 and no output for NULL; otherwise 0 after printing name='value' and a newline, or a crash after a lone quote when the node has no '=' |
| BuiltinHistoryAlias.PrintAliasNode | builtins/builtin_history_alias.c:74-79 | a node with '=' prints as name=, the value in single quotes, and a newline; one without '=' crashes |
| BuiltinHistoryAlias.PutQuoted | builtins/builtin_history_alias.c:75-79 | the text up to the first '=', a quote, the value, a quote and a newline |
| BuiltinHistoryAlias.PutPrefix | builtins/builtin_history_alias.c:75-76 | the characters up to and including the '=', one by one |
| BuiltinHistoryAlias.PutValue | builtins/builtin_history_alias.c:77-79 | a quote, the value as a C string, a quote and a newline |
| BuiltinHistoryAlias.ArgStep | builtins/builtin_history_alias.c:109-113 | one argument keeps the length of the argument vector |
| BuiltinHistoryAlias.MyAlias | builtins/builtin_history_alias.c:91-117 | crashes exactly when called without arguments on a list holding an alias without '='; without arguments every alias is printed in order up to that point; otherwise the arguments are handled in order as ArgsFrom says; the result is 0 |
| BuiltinHistoryAlias.AliasArgs | builtins/builtin_history_alias.c:107-114 | the arguments from 1 on are handled in order |
| BuiltinHistoryAlias.AliasArg | builtins/builtin_history_alias.c:109-113 | one argument is handled as ArgStep says, adding at most one node |
| BuiltinHistoryAlias.SetArg | builtins/builtin_history_alias.c:110-111 | an argument with '=' goes to set_alias |
| BuiltinHistoryAlias.ShowArg | builtins/builtin_history_alias.c:112-113 | an argument without '=' prints the first alias starting with it and '=', if any |
| BuiltinHistoryAlias.ListAliases | builtins/builtin_history_alias.c:97-105 | every node is printed in order until one without '=' crashes, and the result is 0 |
| BuiltinHistoryAlias.ListingCrashFrom | builtins/builtin_history_alias.c:97-105 | the listing from node i crashes exactly when some node from i on has no '=' |
| BuiltinHistoryAlias.SetNewAlias | builtins/builtin_history_alias.c:49-61 | setting a brand-new alias complains "not found", stores only its name and leaves a NUL in place of the argument's '=' |
| BuiltinHistoryAlias.SetExistingAlias | builtins/builtin_history_alias.c:49-61 | setting an alias whose name begins node k's text deletes that node and appends "name=value" without complaint |
| BuiltinHistoryAlias.StrChrAfterName | builtins/builtin_history_alias.c:53-56 | in "name=value" the first '=' is the one after the name, and something follows it |
| BuiltinHistoryAlias.SameString | builtins/builtin_history_alias.c:31-33 | looking up through memory holding the name before a NUL is looking up the name |
| BuiltinHistoryAlias.NewAliasNotUsable | builtins/builtin_history_alias.c:49-61 | after `alias foo=bar` on a list with no node beginning with "foo", replace_alias finds no alias foo |
| BuiltinHistoryAlias.AliasTakesTwoSets | builtins/builtin_history_alias.c:49-61 | the same `alias name=value` issued twice on a fresh name: the first stores the bare name and complains, the second replaces it by "name=value", after which the name expands to the value |
| InputReader.ReadInto | io_handling/input_reader.c:110 | a read puts its bytes at the start of the buffer and keeps the buffer's size |
| InputReader.Source.After | io_handling/input_reader.c:110 | a read on one descriptor consumes only that descriptor's input |
| InputReader.Source.Read | io_handling/input_reader.c:110 | the result is -1 for a failed read and otherwise the byte count, the bytes land at the start of the buffer, and the descriptor's input advances by one read |
| InputReader.LineEnd | io_handling/input_reader.c:143-144 | the line end is len when the string from i holds no newline, and otherwise lies after i within the buffer |
| InputReader.LineEndFound | io_handling/input_reader.c:143-144 | a newline at x, with neither a newline nor a NUL between i and x, makes the line end x + 1 |
| InputReader.LineEndPastRead | io_handling/input_reader.c:143-144 | the search does not stop at len: after a 2-byte read of "xy" over a buffer still holding "cdef\n", the line runs to that stale newline |
| InputReader.CopyOut | io_handling/input_reader.c:147-154 | a new block of k + 1 bytes whose first k - i + 1 are the _strncpy copy of the buffer from i |
| InputReader.GotLineEnds | io_handling/input_reader.c:154-163 | a block _getline returns holds a terminator right after its s bytes |
| InputReader.StripNewline | io_handling/input_reader.c:30-34 | the strip clears at most the one byte before s and keeps the block's size |
| InputReader.LineTaken | io_handling/input_reader.c:26-45 | a line ending in a newline inside the buffer comes out whole: _getline counts it with the newline, and after the strip the chain buffer holds exactly its text and length |
| InputReader.ChainCommand | io_handling/input_reader.c:69-90 | the command handed out is the text from i up to the first delimiter or the end of the line, empty for a suppressed segment, never spanning a delimiter; the next command starts after i and the line's terminator stays |
| InputReader.CommentedCommandRuns | io_handling/input_reader.c:36-90 | a comment does not end the chain: for "a #;b" the commands handed out are "a " and then "b" |
| InputReader.SemicolonExitResumes | io_handling/input_reader.c:69-90 | for the line "a;exit" the first command is "a" and leaves the chain at position 2, and the second is "exit", handed out from there: the exit command's arg points two bytes into the chain buffer |
| InputReader.LineReader.constructor | io_handling/input_reader.c:60-61 | the static buffers and positions start out empty |
| InputReader.LineReader.ReadBuf | io_handling/input_reader.c:104-114 | reads only when the static buffer is empty; the result is the read's count or -1, and a failed read leaves the fill at 0 |
| InputReader.LineReader.GetLine | io_handling/input_reader.c:124-164 | refills the static buffer once it is used up; -1 with no block at end of file or on a read error; otherwise a new block with the bytes up to the line end and their count, and input is consumed |
| InputReader.LineReader.TakeLine | io_handling/input_reader.c:143-157 | the bytes from the position up to the line end go to a new block and the position moves to the line end |
| InputReader.LineReader.InputBuf | io_handling/input_reader.c:10-50 | with commands pending, 0 and nothing changes; otherwise the line _getline returns becomes the chain buffer with its newline stripped and comment cut, is appended to the history under histcount, which goes up by one, and the result is its length; -1 at end of input with nothing changed |
| InputReader.LineReader.InputLine | io_handling/input_reader.c:19-47 | the block of a fresh _getline replaces the chain buffer, and a positive-length line is accepted |
| InputReader.LineReader.AcceptLine | io_handling/input_reader.c:28-46 | the newline is stripped, the comment cut, the line appended to the history, linecount_flag set, and the chain started with the line's length |
| InputReader.LineReader.NextCommand | io_handling/input_reader.c:69-90 | the next command of the chain is handed out in info->arg with its length, arg pointing at the chain position i it starts from; once past the line the chain is reset to CMD_NORM; the chain always shrinks |
| InputReader.LineReader.GetInput | io_handling/input_reader.c:58-95 | standard output is flushed first and nothing more written; -1 only at end of input, with no chain pending and arg unchanged; any other result hands out a command from the chain position it started at, leaves cmd_buf as it was when a chain was pending, and strictly consumes input or chain |
| InputReader.LineReader.ReadNext | io_handling/input_reader.c:66-94 | -1 leaves arg as it was with no chain pending; any other result hands out a command from the chain position it started at, leaves cmd_buf as it was when a chain was pending, and makes progress |
| InputReader.LineReader.ReadCommand | io_handling/input_reader.c:66-94 | with a chain pending, its next command is handed out, nothing is read and cmd_buf keeps its value (input_buf reads, and sets cmd_buf, only with no chain pending); otherwise a line is read and handed out as Handed says: the whole block for a read of length 0 or less, else the first command of its chain; a handed-out arg points at the chain position it started from |
| InputReader.LineReader.HandOut | io_handling/input_reader.c:69-94 | with a line in the chain buffer its next command is handed out, arg pointing at that position of the buffer; otherwise the whole block, arg at its start, with input_buf's result; cmd_buf is left as it is |
| InputReader.SigintHandler | io_handling/input_reader.c:172-177 | a newline and a fresh "$ " prompt are written and flushed |
| InfoSetup.ClearInfo | shell_core/shell_utilities.c:77-90 | arg, argv and path become NULL, argc, linecount_flag and err_num 0, cmd_buf NULL, cmd_buf_type CMD_NORM and readfd 0, so the shell counts as interactive exactly when standard input is a terminal |
| InfoSetup.Tokens | shell_core/shell_utilities.c:106-115 | set_info always has at least one token |
| InfoSetup.TokensMeaning | shell_core/shell_utilities.c:106-115 | the tokens are the words between spaces and tabs, which spell out the line's other characters in order; a line with no such character becomes one token, the line itself |
| InfoSetup.FlattenNonEmpty | shell_core/shell_utilities.c:106-115 | a nonempty list of words spells out something |
| InfoSetup.SetInfo | shell_core/shell_utilities.c:98-123 | fname becomes the program name; with a line, argv is its tokens with aliases then variables expanded, and argc counts them; without a line nothing else changes |
| InfoSetup.PreparedShape | shell_core/shell_utilities.c:106-121 | the prepared argv has one entry per token; the first is alias-replaced then expanded, every later one only expanded |
| InfoSetup.AliasBeforeVariables | shell_core/shell_utilities.c:120-121 | aliases are replaced before variables: a command whose alias value is "$?" runs as the decimal text of the status |
| ShellLoop.PrevSlash | shell_core/shell_loop.c:39-44 | the backward scan finds the last '/' before the final character, or none |
| ShellLoop.ShowPrompt | shell_core/shell_loop.c:20-63 | the prompt written is PromptText of the working directory: "hsh$ " when getcwd fails, otherwise the directory text and "$ " |
| ShellLoop.DirectoryText | shell_core/shell_loop.c:28-57 | the branches print DirText of the working directory, a C string |
| ShellLoop.NoNulSuffix | shell_core/shell_loop.c:31 | what follows a '/' in a C string is a C string |
| ShellLoop.LastIndexBeforeTail | shell_core/shell_loop.c:28 | the last '/' of d + "/" + t, where t holds no '/', is the one before t |
| ShellLoop.PromptNamesDirectory | shell_core/shell_loop.c:28-31 | in a directory d/name the prompt is name followed by "$ " |
| ShellLoop.PromptAtRoot | shell_core/shell_loop.c:54-58 | in the root directory the prompt is "/$ " |
| ShellLoop.PromptWithoutSlash | shell_core/shell_loop.c:54-58 | a working directory without '/' is shown whole |
| ShellLoop.PromptKeepsTrailingSlash | shell_core/shell_loop.c:33-46 | for a directory d/name/ with a trailing '/', the prompt shows name with the '/' still attached |
| ShellLoop.Processes.ForkAndWait | shell_core/command_executor.c:12-35 | each fork_cmd takes the next child the process oracle holds, or a failing fork when none is left |
| ShellLoop.ForkCmd | shell_core/command_executor.c:8-43 | status is unchanged when fork fails, the exit code of a child that exited, otherwise the raw wait status; "Permission denied" is reported after a child that exited with 126; standard output is untouched |
| ShellLoop.ExitCodeRoundTrip | shell_core/command_executor.c:35-38 | a child that calls exit(n) leaves exactly n in status |
| ShellLoop.SignalledChildStatus | shell_core/command_executor.c:35-41 | a child killed by signal sig leaves the raw wait status in status: sig itself, not 128 + sig, or sig + 128 when it dumped core |
| ShellLoop.ExitBuiltinCode | shell_core/shell_loop.c:90-97 | `exit` without argument exits with the last status and `exit n` with n, except that a non-interactive shell with a nonzero status exits with that status |
| ShellLoop.ScriptExitAfterFailure | shell_core/shell_loop.c:90-97 | in a non-interactive shell, `exit 5` after a failing command exits with the failure's status, while an interactive shell exits with 5 |
| ShellLoop.Execute | shell_core/shell_loop.c:70-79 | argv is prepared from the line as set_info does; crashed exactly when CommandCrashes holds for the line, the prepared argv and the lists; otherwise the result is find_builtin's answer for the prepared argv, -1 exactly when fork_cmd ran, and an exit built-in records its code |
| ShellLoop.Dispatch | shell_core/shell_loop.c:71-79 | crashed exactly when the built-in argv[0] names faults, or find_builtin answers -1 and find_cmd overruns; otherwise the result is find_builtin's answer, and find_cmd and fork_cmd run exactly when it is -1 |
| ShellLoop.OnlyHelpAnswersNone | builtins/builtin_manager.c:42-47 | of the built-ins only help can answer -1, so find_cmd runs after a built-in only when help's value is -1 |
| ShellLoop.RunExternal | shell_core/shell_loop.c:74-78 | crashed exactly when find_cmd overruns, with status and the children untouched; otherwise path is what find_cmd resolved and status is what fork_cmd leaves after find_cmd's 127 or the old status, since find_cmd always leaves a path |
| ShellLoop.FreeInfo | shell_core/shell_utilities.c:130-153 | argv and path are dropped and standard output gets nothing new; with all, crashed exactly when cmd_buf is NULL and arg points past the start of its block (free of an interior pointer), and otherwise the three lists are emptied, environ becomes NULL and standard output is flushed; without it, nothing else changes; arg and cmd_buf are kept |
| ShellLoop.Hsh | shell_core/shell_loop.c:11-99 | Undefined exactly when the loop stops on a read command and either that turn's command meets TurnCrashes, or an exit built-in (-2) was read from inside a pending chain (free_info then frees arg, which points into the chain buffer); otherwise the loop ends only at end of input or after an exit built-in, and the shell ends as Ending says with standard output flushed |
| ShellLoop.Finish | shell_core/shell_loop.c:87-98 | Undefined exactly when free_info would free arg from inside a block; otherwise, after writing the history and freeing everything, a non-interactive shell with a nonzero status exits with it; after an exit built-in the shell exits with its code, or with status for -1; otherwise it returns builtin_ret |
| ShellLoop.Cycle | shell_core/shell_loop.c:19-84 | one turn leaves readfd 0; at end of input builtin_ret keeps its value and nothing crashes; a crash comes exactly when the turn's state meets TurnCrashes; arg is left pointing into the chain buffer exactly when a command was read while a chain was pending; any other turn consumes input or moves along the line, so the loop terminates |
| ShellLoop.ReadTurn | shell_core/shell_loop.c:19-67 | after the prelude, a result other than -1 leaves a command in arg and has made progress; arg is left pointing into the chain buffer with cmd_buf NULL exactly when a command was read while a chain was pending |
| ShellLoop.Prelude | shell_core/shell_loop.c:19-65 | readfd is 0, cmd_buf_type CMD_NORM, arg and cmd_buf NULL, and the prompt is written exactly when standard input is a terminal |
| ShellLoop.NextInput | shell_core/shell_loop.c:67 | nothing reaches standard output but a flush, readfd is kept, -1 leaves arg as it was, and any other result leaves a command in arg from the chain position it started at, keeps cmd_buf when a chain was pending, and makes progress |
| ShellLoop.ActStep | shell_core/shell_loop.c:68-84 | at end of input builtin_ret keeps its value and an interactive shell prints a newline; otherwise crashed exactly when TurnCrashes holds for the state the command was read in, arg and cmd_buf are kept, and without a crash the result is find_builtin's answer for the prepared argv and argv and path are freed |
| ShellLoop.RunCommand | shell_core/shell_loop.c:69-79 | for a command read into arg: crashed exactly when TurnCrashes holds for the state it was read in; arg and cmd_buf are kept; without a crash the result is find_builtin's answer for the argv set_info prepares |
| ShellLoop.ChainNeverSkipsInLoop | shell_core/shell_loop.c:19 | because clear_info resets cmd_buf_type before every get_input, && and \|\| never skip a command: the next segment is handed out in full whatever the status |

## Left out

- main.c: opening a script file, its errno handling, `exit()` and the start-up calls (populate_env_list, read_history, hsh) are process glue. `Base.Info.constructor` takes the `readfd` that main would set.
- builtins/builtin_cd.c: `chdir`, `getcwd`, the PWD/OLDPWD updates and the messages of `_mycd` are calls into the operating system. Only its return value is modelled (`BuiltinManager.CdResult`, used by `RunHandler`).
- `_myhelp` is declared in includes/shell.h but has no source. Its result is the parameter `help`.
- shell_core/command_executor.c, the child side: `execve`, the child's `exit` and the `perror` after a failed fork are process launching. `ShellLoop.Processes` decides whether the fork failed and what `wait` reports. Only the parent's handling of that status is modelled.
- `read()`, `open()`, `fstat()` and `close()` are oracles. The bytes of each `read` come from `InputReader.Source`; `read_history` sees a map from file names to contents; `write_history` takes the descriptor `open` returned as a parameter.
- `stat()` in is_cmd is membership in the set `regular` of paths that are regular files.
- `isatty`, `getpid` and `getcwd` are parameters (`tty`, `pid`, `cwd`).
- `write()` inside the buffered writers appends to a ghost log of emitted bytes; nothing reaches a real descriptor.
- `signal(SIGINT, sigintHandler)`: the registration is out of scope. What the handler prints is `InputReader.SigintHandler`.
- The failure of `malloc`: every allocation succeeds.
- Memory reclamation: `free`, `ffree`, `bfree`'s effect on the heap and the frees in free_list and replace_string. Dafny is garbage-collected; FreeInfo and FreeList state only which fields and lists become NULL or empty.
- Relinking `next` pointers in place: a list is the sequence of its nodes, and a node is known by its position. Aliasing between nodes of different lists does not arise in the shell and is not modelled.
- _getline's accumulation path, when `*ptr` is not NULL: input_buf always frees and clears the pointer first, so `InputReader.LineReader.GetLine` models only the path that starts a fresh block.
- ConvertNumber: requires a base from 2 to 16, a `long` value and a text of at most 49 characters, because the 50-byte static buffer and the 16-character digit table allow no more; outside these the C code has no defined behaviour.
- PrintD: requires an `int` input, as its parameter type says. For INT_MIN it prints "-2147483648": `-input` is signed overflow in C, which the model gives its two's-complement result (2^31 as an unsigned int). print_error reaches this case, because it passes the unsigned line_count as an `int`.
- StrCat, StrNCat, StrCpy and StrNCpy: require a destination large enough for the result, as every caller provides; an overflowing copy is not modelled.
- DupChars: requires the copy to fit in the 1024-byte static buffer of find_path. Its caller checks the length of each candidate it builds, and only those: the scan stops at the first match, and the "./" shortcut builds none. A candidate that reaches 1024 bytes with its terminator makes FindCmd report `overflow`, after which Hsh ends with `Undefined`.
- RunHandler: a history whose node numbers leave the range of `int`, or an environment or alias list with more than 2^32 - 1 nodes, is reported as a `fault` rather than followed through the wrap-around of the C counters.
- AddNode and AddNodeEnd: a NULL string is stored as the empty string. No caller passes NULL, so print_list's "(nil)" never appears in the model's output.
- StrCmp: compares characters as unsigned code points, while C's `char` is signed on common targets. For bytes above 0x7F the sign of a nonzero result can differ; equality, the only use the built-in table makes of it, is the same.
- LineEnd and GetLine: the search for the line end assumes a NUL or a newline lies within the 1024-byte static buffer from the current index on. When neither does, the C loop reads past the buffer; the model stops at the buffer's end instead and does not report the over-read.
- GetLine, CopyOut and Realloc: when the line end lies before the current index (k < i, which stale bytes after a short read allow, see `InputReader.LineEndPastRead`), _getline returns the negative count k - i and copies nothing into its new block. In C that block comes from `malloc` uninitialised, and the shell then reads it as a command (strtow and the rest). The model's Realloc fills a new block with NULs, so the model hands out an empty command there and does not report the read of uninitialised memory. For example, with a first read of "abc\ndef\n" and a second read of "xy", the fifth call returns -6.
- The comparison of a signed `char` with BUF_FLUSH (-1): a byte 0xFF written through `_putchar` or `_eputchar` would also flush. The model keeps a character and the flush request apart, so such a byte is buffered like any other.
- ExitBuiltinCode: the code passed to `exit()` is stated as an `int`; its truncation to 8 bits by the operating system is not modelled.
- `hsh`'s return value is ignored by main, so Hsh states it but nothing uses it.

## Behaviour as written

These follow from the C code and are proved about the model as it stands:

- replace_alias returns 1 only when all ten rounds found an alias; it returns 0 as soon as argv[0] is not one (`VariableExpansion.ReplaceAlias`).
- `alias name=value` for a name that has no alias yet stores only the bare name and complains. The alias can be used only after the same command is given a second time (`BuiltinHistoryAlias.NewAliasNotUsable`, `BuiltinHistoryAlias.AliasTakesTwoSets`).
- unset_alias deletes the first alias whose text begins with the name, so unsetting `l` can delete `ls=...` (`BuiltinHistoryAlias.UnsetAlias`).
- print_alias dereferences `(char *)1` for an alias without '=', which such a bare-name alias is; the model ends the loop there (`fault`, `Undefined`).
- A comment does not end a chain: in `a #;b` the command `b` is still handed out (`InputReader.CommentedCommandRuns`).
- clear_info resets `cmd_buf_type` before every read, so `&&` and `||` never skip a command (`ShellLoop.ChainNeverSkipsInLoop`).
- clear_info also resets `readfd` to 0, and hsh calls it before every get_input, the first one included. A script given on the command line is therefore never read: the shell reads standard input from the first cycle on (`ShellLoop.Prelude`, `ShellLoop.Cycle`).
- find_cmd always leaves a path, so fork_cmd runs even after "not found" and after a blank line (`ShellLoop.RunExternal`).
- A working directory ending in '/' is shown in the prompt with that slash (`ShellLoop.PromptKeepsTrailingSlash`). The branch of the prompt code that prints "/" alone is never reached.
- The entries of the built-in table after the first `{NULL, NULL}` sentinel can never be found (`BuiltinManager.BuiltinNames`, `BuiltinManager.NewlineNamesUnreachable`).
- `setenv` with three arguments returns 1 when `_setenv` succeeds, the opposite of the other built-ins (`EnvManager.MySetEnv`).
- In a script, `exit 5` after a failing command exits with the failure's status (`ShellLoop.ScriptExitAfterFailure`).
- A child killed by a signal leaves the raw wait status in `status`: the signal number, plus 128 when the child dumped core, rather than the shell convention of 128 plus the number (`ShellLoop.SignalledChildStatus`).
- `exit` as a later command of a chain (`ls; exit`, `true && exit`) has no defined behaviour: clear_info sets cmd_buf to NULL before every get_input, and get_input sets it again only when it reads a new line, so free_info frees arg, which points into the middle of the chain buffer. hsh then ends with `Undefined` (`ShellLoop.Hsh`, `ShellLoop.FreeInfo`; `InputReader.SemicolonExitResumes` shows the exit of `a;exit` handed out two bytes into its line). `exit` alone on a line, or first in its chain, is freed correctly.
- At the end of input, hsh keeps the `builtin_ret` of the last cycle.
- strtow2 returns empty strings for every field after the first (`StringTokenization.StrTow2Shape`).
- _getline looks for the line end from the current index without stopping at the number of bytes read. After a short read it can run into stale bytes from an earlier read (`InputReader.LineEndPastRead`).
- A session whose only history entry is an empty line, or a line that is only a comment (input_buf stores it after cutting the comment), writes the history file "\n"; read_history ignores files shorter than two bytes, so that entry is not read back at the next start (`HistoryManager.SingleEmptyEntryLost`, `HistoryManager.ReadAfterWrite`).
- read_history trims the list while the number of entries read reaches HIST_MAX, so at most HIST_MAX - 1 entries are kept (`HistoryManager.KeptNewest`).
