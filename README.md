# vcservice logger and path helpers in Dafny

This project models two parts of the vcservice library.

**The bounded log-message builder (`src/log/`).** A logger (`struct vcservice_log`) holds:
- a 4096-byte message buffer with a cursor;
- a format word whose bit 0 selects hexadecimal output;
- a threshold level and a message level;
- the psock it owns and writes committed messages to.

The model has two layers:
- **Values.** `LogMessage` describes the buffer and cursor as a value `Msg`, with one function per buffer operation: start, string append, `snprintf`-style integer append, commit.
- **Objects.** `Logger.Log` is a class with an `array<char>` buffer. Its methods do what the C functions do (`memset`, `memcpy`, cursor arithmetic). Each method is proved to move the object's state exactly as the matching `LogMessage` function says.

The properties of the log are lemmas about those functions. Examples:
- a line of strings that fits is the timestamp, the strings and a newline;
- string appends that overflow leave a cut-off prefix of the text;
- a truncated integer ends in a NUL;
- format words and level names read back.

Construction and teardown are also modelled:
- creating a logger from a psock;
- the `dup` → psock → logger sequence for standard output, with its cleanup paths;
- the release of a logger.

These use ghost ownership state on the psock. A psock can be released only once. For the standard-output sequence, a lemma proves that every resource acquired is handed on or released exactly once.

**Path helpers (`src/path/`).**
- `path_dirname` is modelled as the `strtok_r`/`strncat` loop it is, and proved equal to a specification `DirnameOf`. `DirnameOf` is defined from the list of non-empty components, and lemmas give its properties: round trip through splitting, length bound, absolute/relative cases, and the library's test inputs.
- `path_append_default` is a function. A lemma proves that the directories of its result are those of the given path followed by those of the default path.

Operating-system and allocator calls are parameters. These are `dup`, the allocator, psock creation, write and release, `strdup`/`strcatv`, UUID rendering and the clock. Each parameter is the status the call returns or the value it produces.

## Model

| member | source | states |
|---|---|---|
| CStrings.CString | src/log/vcservice_log_append_string.c:29-30 | `strlen`: the result is the prefix of `s` before its first NUL, contains no NUL, and is followed by a NUL when shorter than `s` |
| CStrings.CStringOfNulFree | src/log/vcservice_log_append_log_level.c:34-35 | a string without NUL (such as every level name) is its own C string, so `strlen` is its full length |
| CStrings.Zeros | src/log/vcservice_log_message_start.c:25-26 | `memset(.., 0, n)`: n bytes, all NUL |
| CStrings.Span | src/path/path_dirname.c:84-90 | the length of the text before the first separator: no separator inside it, and the separator (or the end) right after it |
| LogLevels.Value | include/vcservice/log.h:28-36 | the six levels are 0, 10, ..., 50; each value is ten times the level's position, so a smaller value is more critical |
| LogLevels.FromValue | include/vcservice/log.h:28-36 | a number denotes a level exactly when it is one of the six enumeration values, and then that level's value is the number |
| LogLevels.ValueRoundTrip | include/vcservice/log.h:28-36 | every level's value is valid and maps back to the same level |
| LogLevels.LevelName | src/log/vcservice_log_append_log_level.c:51-76 | the name is 4 to 8 upper-case letters with no trailing space; it is "UNKNOWN" exactly when the number is not a level |
| LogLevels.LevelNameRoundTrip | src/log/vcservice_log_append_log_level.c:53-75 | reading the name back gives the level the number denotes (None for "UNKNOWN"), so distinct levels have distinct names |
| LogLevels.Emits | include/vcservice/log.h:56-57 | critical messages are always written; a debug threshold writes every valid level; under a valid threshold an unknown level above debug is never written |
| LogLevels.EmitsFollowsRank | include/vcservice/log.h:56-57 | "written if level <= threshold" agrees with the enumeration order on the six levels |
| LogLevels.EmitsExtremes | include/vcservice/log.h:98-99 | critical messages pass every threshold; a debug threshold passes every level |
| LogFormat.FormatConstants | src/log/log_internal.h:15-17 | the hex flag lies inside the 16-bit format mask; the default format is the all-zero format field |
| LogFormat.WithHexFormat | src/log/vcservice_log_format_set_hex.c:26-30 | afterwards the format field equals the hex flag and every bit outside the mask is kept |
| LogFormat.WithDefaultFormat | src/log/vcservice_log_format_set_default.c:26-30 | afterwards the format field is zero (hex off) and every bit outside the mask is kept |
| LogFormat.SetHexIdempotent | src/log/vcservice_log_format_set_hex.c:27-30 | setting hex twice is setting it once |
| LogFormat.SetDefaultIdempotent | src/log/vcservice_log_format_set_default.c:27-30 | setting the default format twice is setting it once |
| LogFormat.SetDefaultUndoesHex | src/log/vcservice_log_format_set_default.c:27-30 | hex followed by default gives the same word as default alone |
| LogFormat.ZeroIsDefault | src/log/vcservice_log_create_from_psock.c:80-81 | the zeroed word of a fresh logger is in the default format |
| LogFormat.DigitValue | src/log/vcservice_log_append_uint8.c:52-58 | the value of a digit character is the digit that prints as it |
| LogFormat.Decimal | src/log/vcservice_log_append_uint8.c:58 | `%u` output: at least one character, decimal digits only, no leading zero |
| LogFormat.DecimalRoundTrip | src/log/vcservice_log_append_uint64.c:58 | reading the decimal numeral back gives the number |
| LogFormat.DecimalLength | src/log/vcservice_log_append_uint64.c:58 | a numeral has at most k digits exactly when the number is below 10^k |
| LogFormat.HexDigits | src/log/vcservice_log_append_uint8.c:54 | `%0Nx` output: exactly N lower-case hex digits |
| LogFormat.HexRoundTrip | src/log/vcservice_log_append_uint64.c:54 | N hex digits read back as the number when it is below 16^N |
| LogFormat.HexTextReadsBack | src/log/vcservice_log_append_uint8.c:52-55 | "0x" and N hex digits is N+2 characters starting "0x" and parses back as the number |
| LogFormat.DecimalTextReadsBack | src/log/vcservice_log_append_uint8.c:56-59 | a decimal numeral parses back as the number |
| LogFormat.FormatUint8 | src/log/vcservice_log_append_uint8.c:49-60 | the printed text starts with "0x" exactly when the hex bit of the format word is set |
| LogFormat.FormatUint64 | src/log/vcservice_log_append_uint64.c:49-60 | the printed text starts with "0x" exactly when the hex bit of the format word is set |
| LogFormat.FormatUint8Spec | src/log/vcservice_log_append_uint8.c:49-60 | an 8-bit value prints as "0x" and 2 hex digits when the hex bit is set and as 1-3 decimal digits otherwise, and it parses back as the value |
| LogFormat.FormatUint64Spec | src/log/vcservice_log_append_uint64.c:49-60 | a 64-bit value prints as "0x" and 16 hex digits (18 characters) in hex mode and as at most 20 decimal digits otherwise, and it parses back as the value |
| LogFormat.FormatTenExample | src/log/vcservice_log_append_uint8.c:52-58 | ten prints as "0x0a" in hex mode and "10" by default |
| LogMessage.Overwrite | src/log/vcservice_log_append_string.c:37 | `memcpy` at an offset: each byte is the copied byte inside the range and the old byte outside it |
| LogMessage.Started | src/log/vcservice_log_message_start.c:25-48 | after a start the text is exactly the timestamp (none if it does not fit), the cursor is its length, every byte from the cursor on is NUL, and nothing depends on the earlier buffer |
| LogMessage.AppendString | src/log/vcservice_log_append_string.c:26-40 | the cursor moves by min(strlen, room); the text grows by that prefix of the string; bytes from the new cursor on are untouched (no terminator); a full buffer is unchanged |
| LogMessage.SnprintfBytes | src/log/vcservice_log_append_uint8.c:34-36 | `snprintf` stores nothing into a zero-size space, otherwise the text cut to room-1 characters and a NUL |
| LogMessage.Printed | src/log/vcservice_log_append_uint8.c:27-43 | after an integer append the cursor has moved by min(length, room) and stays within the buffer |
| LogMessage.PrintedIntoFull | src/log/vcservice_log_append_uint64.c:28-43 | an integer append into a full buffer changes nothing |
| LogMessage.PrintedFits | src/log/vcservice_log_append_uint8.c:34-43 | text that fits is appended whole and followed by a NUL just past the cursor; later bytes are unchanged |
| LogMessage.PrintedTruncates | src/log/vcservice_log_append_uint64.c:34-43 | text that does not fit leaves the cursor at 4096 and the text ends with room-1 characters of it and a NUL |
| LogMessage.PrintedTruncationEndsInNul | src/log/vcservice_log_append_uint8.c:34-43 | a truncated integer append is therefore not the plain cut-off prefix of the concatenation: its last byte is NUL |
| LogMessage.Committed | src/log/vcservice_log_message_commit.c:22-26 | what a commit hands to the sink: the text and a newline when there is room for it, the text alone when the buffer is full; never more than 4096 bytes |
| LogMessage.AppendStringPrefix | src/log/vcservice_log_append_string.c:27-40 | appending a string and cutting later is the same as cutting the concatenation |
| LogMessage.AppendAllTruncates | src/log/vcservice_log_append_string.c:27-40 | a run of string appends leaves exactly the first 4096 bytes of the concatenated text |
| LogMessage.LineOfStrings | src/log/vcservice_log_message_commit.c:22-26 | a started message of strings that fits commits as the timestamp, the strings and "\n" |
| PsockSink.Psock.constructor | src/log/vcservice_log_create_using_standard_output.c:69-77 | a new psock owns its descriptor, has written nothing and is neither released nor owned by a logger |
| PsockSink.Psock.WriteRawData | src/log/vcservice_log_write_psock.c:41-42 | a raw write records the data as one write when that write's outcome is success, and returns the outcome |
| PsockSink.Psock.Release | src/log/vcservice_log_resource_release.c:39-43 | release requires an unreleased psock and marks it released: at most one release |
| Logger.ReleaseStatus | src/log/vcservice_log_resource_release.c:51-59 | success exactly when both the psock release and the reclaim succeed; a psock failure wins over a reclaim failure |
| Logger.Log.constructor | src/log/vcservice_log_create_from_psock.c:80-88 | a zeroed logger with the threshold, the psock and the write callback filled in |
| Logger.Log.CreateFromPsock | src/log/vcservice_log_create_from_psock.c:58-97 | an allocation failure returns its status, leaves the caller's `*log` (`prior`) as it was and does not take the psock; success gives a valid fresh logger that owns the psock, with the given threshold, cursor 0, default format, level 0 and an all-NUL buffer |
| Logger.Log.ThresholdLevel | src/log/vcservice_log_threshold_level.c:20-24 | the threshold of a valid logger is one of the six levels |
| Logger.Log.Put | src/log/vcservice_log_append_string.c:37 | the buffer becomes `Overwrite` of the old buffer |
| Logger.Log.MessageStart | src/log/vcservice_log_message_start.c:19-49 | the buffer and cursor become `Started(stamp)`; format word, levels and threshold are unchanged |
| Logger.Log.AppendString | src/log/vcservice_log_append_string.c:19-41 | the buffer and cursor become `LogMessage.AppendString` of the old ones |
| Logger.Log.AppendLogLevel | src/log/vcservice_log_append_log_level.c:21-46 | the same as appending the level's name as a string |
| Logger.Log.Print | src/log/vcservice_log_append_uint8.c:27-43 | the buffer and cursor become `Printed` of the old ones |
| Logger.Log.AppendUint8 | src/log/vcservice_log_append_uint8.c:21-44 | prints `FormatUint8` of the current word; the word is unchanged, so hex mode stays on |
| Logger.Log.AppendUint64 | src/log/vcservice_log_append_uint64.c:21-44 | prints `FormatUint64` of the current word; the word is unchanged |
| Logger.Log.AppendUuid | src/log/vcservice_log_append_uuid.c:23-52 | a failed rendering leaves buffer and cursor unchanged; otherwise the same as appending the rendered string |
| Logger.Log.FormatSetHex | src/log/vcservice_log_format_set_hex.c:17-31 | the word becomes `WithHexFormat` of the old word; nothing else changes |
| Logger.Log.FormatSetDefault | src/log/vcservice_log_format_set_default.c:17-31 | the word becomes `WithDefaultFormat` of the old word; nothing else changes |
| Logger.Log.WritePsock | src/log/vcservice_log_write_psock.c:21-50 | the first cursor bytes are written in one call whatever the level; a failure is swallowed; the logger is unchanged |
| Logger.Log.MessageCommit | src/log/vcservice_log_message_commit.c:16-27 | after a newline append the psock receives exactly `Committed` of the message before the commit (if the write succeeds) |
| Logger.Log.Release | src/log/vcservice_log_resource_release.c:25-60 | the psock, if any, is released once and its writes are kept; the logger is zeroed and released; the status is `ReleaseStatus` |
| Logger.LineOfPieces | src/log/vcservice_log_append_uint8.c:34-43 | timestamp, two strings and a printed number that fit commit as their concatenation and "\n" |
| Logger.InfoLineExample | src/log/vcservice_log_append_log_level.c:64-65 | an INFO line of "started" and 7 reads "<stamp>INFOstarted7\n": the level name has no separator after it |
| StandardOutput.Setup | src/log/vcservice_log_create_using_standard_output.c:52-111 | a failed dup returns the dup error with nothing acquired; a failed psock creation closes the descriptor and returns that status; a failed allocation releases the psock once, and a release failure replaces the error; success exactly when all three steps succeed, with nothing released or closed |
| StandardOutput.SetupBalanced | src/log/vcservice_log_create_using_standard_output.c:58-110 | on every path the duplicated descriptor goes to the psock or is closed, and the psock goes to the logger or is released, each exactly once |
| StandardOutput.CreateUsingStandardOutput | src/log/vcservice_log_create_using_standard_output.c:52-111 | the goto sequence yields `Setup`'s status and actions; on success a logger is returned that owns a fresh psock on the duplicated descriptor; on every failure the caller's `*log` (`prior`) is left as it was |
| PathDirname.Tokens | src/path/path_dirname.c:84-90 | the `strtok_r` tokens on '/': since tokens are separated by at least one '/', a path of length L has at most (L+1)/2 of them |
| PathDirname.DirnameOf | src/path/path_dirname.c:84-127 | the reference result, which the loop is proved to compute: never empty, "." standing for the current directory |
| PathDirname.TokensAreComponents | src/path/path_dirname.c:84-90 | every `strtok_r` token is non-empty and free of '/' |
| PathDirname.TokensOfJoin | src/path/path_dirname.c:84-90 | splitting the '/'-join of components gives the components back |
| PathDirname.DirnameComponents | src/path/path_dirname.c:84-123 | split again, the directory part is the path's components but the last |
| PathDirname.DirnameAbsolute | src/path/path_dirname.c:103-129 | with at most one component the result is "."; otherwise it starts with '/' exactly when the path does |
| PathDirname.AbsoluteParent | src/path/path_dirname.c:103-110 | an absolute path of two or more components gives '/' and all components but the last |
| PathDirname.RelativeParent | src/path/path_dirname.c:84-123 | a relative path of two or more components gives all components but the last |
| PathDirname.DirnameFits | src/path/path_dirname.c:71-74 | the directory part is no longer than the path, so it fits the `strlen + 1` buffer |
| PathDirname.Strncat | src/path/path_dirname.c:98-117 | `strncat` appends all of the source when the limit allows it, a prefix of `n` characters otherwise |
| PathDirname.Strncpy | src/path/path_dirname.c:124-127 | `strncpy` read as a C string: a prefix of the source, all of it when the limit allows, exactly `n` characters otherwise |
| PathDirname.JoinParents | src/path/path_dirname.c:71-129 | the token loop produces exactly `DirnameOf` of the path |
| PathDirname.BuiltFits | src/path/path_dirname.c:93-118 | the output after each step fits in the path's length, so no `strncat` is cut short |
| PathDirname.BuiltStep | src/path/path_dirname.c:93-122 | each step appends a separator (or the lead, first) and the previous token |
| PathDirname.Dirname | src/path/path_dirname.c:34-150 | NULL arguments give the invalid-parameter status; an empty name gives "." or the `strdup` failure; otherwise allocation failures are returned, success gives `DirnameOf` the name, and a reclaim failure overrides the status |
| PathDirname.BareFileExample | test/path/test_path_dirname.cpp:98-104 | "foo.txt" gives "." |
| PathDirname.RelativeExample | test/path/test_path_dirname.cpp:129-136 | "build/foo.txt" gives "build" |
| PathDirname.CurrentDirectoryExample | test/path/test_path_dirname.cpp:227-237 | "./foo.txt" gives "." |
| PathDirname.AbsoluteExample | test/path/test_path_dirname.cpp:193-203 | "/build/src/foo.txt" gives "/build/src" |
| PathAppendDefault.AppendDefault | src/path/path_append_default.c:34-59 | NULL arguments give the invalid-parameter status; otherwise the allocator's status, with a result exactly on success: the default path for an empty path, else `path`, ':' and the default path |
| PathAppendDefault.FieldsOfJoin | src/path/path_append_default.c:56-57 | the directories of `a:b` are those of `a` followed by those of `b` |
| PathAppendDefault.SearchOrder | src/path/path_append_default.c:48-58 | the result lists the given directories first and then the default ones |

## Left out

- Clock: `time`, `localtime_r` and `strftime` are left out. `Logger.Log.MessageStart` takes the formatted timestamp as a parameter. When the timestamp does not fit, `strftime`'s buffer contents are unspecified; the model leaves the buffer zeroed and the cursor at 0.
- Foreign calls are parameters or oracle objects. These are the allocator, `rcpr_strdup`/`rcpr_strcatv`, psock creation, write and release, `dup`, `close` and `rcpr_uuid_to_string`. The psock records successful writes as ghost state. Closing a descriptor is an action in the trace.
- Memory: the model has no pointers, so it does not capture the following.
  - The `hdr` resource header and `vcservice_log_resource_handle`.
  - The allocator cached before the struct is wiped in `vcservice_log_resource_release`.
  - `(*dirname)[pathmax] = 0`. A Dafny sequence needs no terminator.
- Logger.Log.AppendUuid: the temporary string's wipe, its reclaim and a failing reclaim are not modelled. The caller cannot observe any of them.
- Logger.Log.CreateFromPsock: the logger's `alloc` field is not modelled. It is used only by the UUID append and the release, which receive allocator outcomes as parameters. The struct in src/log/log_internal.h:22-35 declares no `alloc` member, although src/log/vcservice_log_create_from_psock.c:85 and src/log/vcservice_log_resource_release.c:37 use one.
- Logger.Log.CreateFromPsock: the threshold is checked only by a model assertion in the source, so here it is a precondition. The header declares the function as `vcservice_log_create_from_descriptor` (include/vcservice/log.h:84). The implementation, modelled here, is `vcservice_log_create_from_psock`.
- Logger.Log.AppendLogLevel: deliberately accepts any number, more than the source allows. src/log/vcservice_log_append_log_level.c:26 requires a valid level, but only by a model assertion. For any other number `log_level_to_string` gives "UNKNOWN", and the model keeps that case.
- Logger.Log.MessageCommit: the message level `log_level` handed to the write callback is never set by any function of the library, so it stays 0. The psock callback ignores it.
- The type-generic logging macros and the threshold-gate macros are not part of this model. The gate appears only as the documented predicate `LogLevels.Emits`.
- `vcservice_log_format_hex_sentry`, `vcservice_log_format_default_sentry` and the stdout logger example program are not part of this model. The sentries are empty marker structs that the setters ignore.
- `_PATH_DEFPATH` is the parameter `defPath`.
- The path tests with seven components are covered by the general lemmas `PathDirname.AbsoluteParent` and `PathDirname.RelativeParent`. The worked examples use shorter paths.

Where the code and its documented intent differ, the model follows the code:
- On failure the documentation says `*log` is set to NULL (include/vcservice/log.h:81 and 121, src/log/vcservice_log_create_from_psock.c:56). The code never writes `*log` on a failure path, so `Logger.Log.CreateFromPsock` and `StandardOutput.CreateUsingStandardOutput` hand back the caller's prior value.
- Level names carry no trailing space.
- `message_start` resets neither the format word nor the levels, so hex mode persists across messages.
- An integer that does not fit is cut one character short and followed by a NUL, as `snprintf` does (ISO C11 section 7.21.6.5). The buffer therefore does not hold the first 4096 bytes of the concatenated text (`LogMessage.PrintedTruncationEndsInNul`). String appends do hold them (`LogMessage.AppendAllTruncates`).
