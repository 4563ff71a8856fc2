# KtasExporter core, modelled in Dafny

KtasExporter signs in to Codewars and scrapes the katas (solved exercises)
the user has completed. It skips the katas already exported, appends each
new one to a Markdown file and commits it with git. This project models the
logic under that plumbing and proves what it promises:

- **Masking** passwords and e-mail addresses before they are logged (`Security`, `Validators`).
- **Credential validation**: the e-mail pattern, the minimum password length, the missing-variable report and the non-raising wrapper (`UserCredentials`, `Validators`, `EnvVars`).
- **Chrome version parsing**: the `N.N.N.N` prefix match, the major number and the compatibility test (`ChromeVersion`).
- **The application-state ledger**: two duplicate-free, append-only name lists (`AppState`).
- **Ledger seeding and file routing**: the title-line parser of `read_katas`, the memoised per-language file name and the choice of target file (`FileManagement`).
- **The scrape-and-collect loop** over an abstract page (`WebScraper`).
- **The authentication retry loop** (`Authentication`).
- **Configuration lookup** (`Configuration`).
- **The export block** written per kata and the save loop of `main` (`Export`).

`Wrappers` holds Option and Result. `Text` models the Python string operations the source uses:
- `strip`, `lower` and `rfind`;
- slicing with negative bounds;
- `split` and `join`;
- `int` and `str` on integers.

`Katas` holds the `Kata` record.

Modelling choices:

- A configuration dictionary is a `map<string, Option<string>>`, because the environment file loader can store a key without a value.
- A regular expression is stated twice: once as the expression reads (a ghost existential), once as a deterministic scan. A lemma proves the two equal.
- The browser is an oracle:
  - a page is a sequence of `Pass` values, each a list of solution elements whose parts are present or missing, plus whether the load-more marker was found after that pass;
  - an authentication attempt is an outcome `outcomes(attempt)`.
- The file system is a class holding a `map` from path to text. Reading a file goes through text-mode newline translation and then line splitting.
- Methods that update state in the source are methods on classes: the ledger, the file manager's cache and the file system. Each is proved against a pure function: `Added`, `ScanPass`/`Collect`, `ScannedTitles`, `Appends`/`Writes`.

Behaviours of the code that the model keeps as written:

- `mask_password(p, 0)` returns a row of stars followed by the whole password, because `password[-0:]` is the whole string.
- `mask_email` returns `""` for an address without `@`. It fails with an unpacking error when there are two or more.
- Python's `$` also matches before a final newline, so `"a@b.co\n"` passes the e-mail pattern.
- The version pattern is matched with `match`, so only a prefix must match: `"94.0.4606.81-beta"` is accepted.
- The level test of the scraper is case-sensitive. The title-line test of the seeding parser is not.
- Every line of an output file is parsed, including a `# 6 kyu` comment inside a code fence.
- The scraper pushes every accepted name before `main` saves anything. So every block written in one run carries the same number: the size of the pushed list after scraping.
- `main` saves only once the scraper has returned: because the expected count was reached, or because the load-more marker was missing. While the marker stays present and no new kata appears, the source goes on looping and saves nothing. The model's passes are finite, so when they run out the model reports the run as unfinished and writes nothing.
- A code element without a `data-language` attribute makes `.lower()` raise an AttributeError that nothing catches. The model returns it as an error that stops the loop. The error then leaves `main` before the save loop, so nothing is written. The names accepted before the error stay in both lists.
- A kata whose name contains `[` is read back from its heading cut at the first `[`. So the seeding parser never finds its name in the pushed list, and it is exported again on every run.
- The scraper takes the anchor text as it is. A name with surrounding whitespace is read back stripped, so it too is never found and is exported again on every run.
- A heading appended to a file whose last line has no line break is glued to that line. Its name is then not read back as a title of its own.
- `push_step` of a key stored without a value is a TypeError. Text that is not a base-ten integer literal is a ValueError.

## Model

| member | source | states |
|---|---|---|
| Security.MaskPassword | src/auth/security.py:16-26 | "" for ""; a password of at most 2·visible characters becomes that many stars; otherwise the first and last `visibleChars` characters are kept with stars between, and the length is preserved for visibleChars ≥ 1 |
| Security.MaskPasswordZeroVisible | src/auth/security.py:22-26 | with no visible characters the result is the stars followed by the whole password (the `[-0:]` slice) |
| Security.MaskLocal | src/auth/security.py:44-47 | a local part of four characters or fewer becomes all stars; a longer one keeps its first two and last two characters; length preserved |
| Security.MaskEmail | src/auth/security.py:39-49 | Ok("") when there is no `@`; an error exactly when there are two or more; otherwise the local part masked, the `@` and the domain copied, same length as the input |
| Security.MaskEmailSingleAt | src/auth/security.py:42-49 | with exactly one `@` the result is the masked local part, `@` and the unchanged domain |
| Security.MaskCredentials | src/auth/security.py:63-66 | succeeds exactly when the e-mail masks, and then is the pair (mask_email(e), mask_password(p, 2)) |
| Security.MaskEmailExample | src/auth/security.py:44-49 | "ab@example.com" masks to "**@example.com" |
| Security.MaskEmailWithoutAt | src/auth/security.py:39-40 | "not-an-email" masks to "" |
| Security.MaskPasswordExample | src/auth/security.py:22-26 | "abcdefgh" masks to "ab****gh" |
| UserCredentials.MatchesDomainIff | src/auth/credentials.py:15 | the deterministic domain scan accepts exactly what `[a-zA-Z0-9.-]+\.[a-zA-Z]{2,}` matches |
| UserCredentials.MatchesAddressIff | src/auth/credentials.py:15 | the deterministic address scan accepts exactly what the body of EMAIL_PATTERN matches |
| UserCredentials.FullMatchEndsInLetter | src/auth/credentials.py:15 | a full match ends in a letter, so a trailing newline is never part of it |
| UserCredentials.EmailPatternMatchIff | src/auth/credentials.py:15 | the deterministic check is exactly `re.match` of the pattern, with `$` also matching before one final newline |
| UserCredentials.AcceptedEmailShape | src/auth/credentials.py:15 | an accepted address, less at most one final newline, has exactly one `@`, a non-empty local part over the allowed characters before it, and after it a domain ending in a dot and two or more letters with a character before that dot |
| UserCredentials.EmailPatternAccepts | src/auth/credentials.py:15 | "a@b.co" is accepted |
| UserCredentials.EmailPatternRejects | src/auth/credentials.py:15 | "not-an-email" is rejected |
| UserCredentials.EmailPatternTrailingNewline | src/auth/credentials.py:15 | "a@b.co\n" is accepted |
| UserCredentials.CheckEmail | src/auth/credentials.py:38-39 | no error exactly when the address matches; otherwise "Invalid email format" |
| UserCredentials.CheckPassword | src/auth/credentials.py:48-51 | no error exactly when the password has at least eight characters; otherwise the length message |
| UserCredentials.Validate | src/auth/credentials.py:28-29 | valid exactly when both checks pass; a bad e-mail is the error reported even when the password is bad too |
| UserCredentials.NewCredentials | src/auth/credentials.py:17-19 | construction succeeds exactly when the e-mail matches and the password has length ≥ 8, stores the fields unchanged and is valid; otherwise the first failing check's error |
| UserCredentials.ConstructionBounds | src/auth/credentials.py:48 | an empty e-mail or password is refused; eight characters pass and seven do not |
| UserCredentials.PasswordTooShortText | src/auth/credentials.py:50 | the message is "Password must be at least 8 characters long" |
| UserCredentials.ConstructionExamples | src/auth/credentials.py:17-19 | "a@b.co" with eight characters is built; a bad address and a short password give their errors |
| UserCredentials.ToString | src/auth/credentials.py:53-55 | the rendering ends with `password='****')` |
| UserCredentials.ToStringHidesPassword | src/auth/credentials.py:55 | the rendering is the same whatever the password |
| EnvVars.MissingKeys | src/validators.py:71 | a key is reported exactly when it is required and its value is absent, None or empty |
| EnvVars.NoneMissing | src/auth/configuration.py:41-42 | nothing is missing exactly when every required key holds a non-empty string |
| EnvVars.MissingKeysInOrder | src/auth/configuration.py:41 | the missing keys come in the order of the required list |
| Validators.ValidateEmail | src/validators.py:32-35 | True exactly when the address matches the same pattern as credentials.py; otherwise "Invalid email format" |
| Validators.ValidatePassword | src/validators.py:51-55 | True exactly when the password has at least eight characters; otherwise the length message |
| Validators.ValidateEnvVars | src/validators.py:71-81 | True exactly when no required key is missing and the e-mail and password pass; a missing key is reported before either check, and the e-mail before the password; with every key present and a valid e-mail, a password under eight characters gives the too-short error |
| Validators.MaskSensitiveData | src/validators.py:94-96 | length preserved; four characters or fewer become all stars; otherwise the first and last two are kept |
| Validators.MaskSensitiveDataIsMaskPassword | src/validators.py:96 | mask_sensitive_data(d) is mask_password(d, 2) for every d |
| Validators.ValidateCredentials | src/validators.py:109-116 | (True, None) exactly when validate_env_vars succeeds; otherwise (False, "Credentials validation failed: " + its message) |
| Validators.EmailCheckedBeforePassword | src/validators.py:78-79 | with every key present, a bad address is the failure reported |
| ChromeVersion.DigitRun | src/webdriver_manager/version.py:10 | the length of the maximal leading run of digits |
| ChromeVersion.DigitRunAt | src/webdriver_manager/version.py:10 | a digit run that stops at a non-digit or the end is the leading run |
| ChromeVersion.MatchVersionShape | src/webdriver_manager/version.py:58 | the greedy scan accepts exactly the strings with a four-group prefix, and group 1 is the first group of every such shape |
| ChromeVersion.GetMajorVersion | src/webdriver_manager/version.py:58-61 | succeeds exactly when the pattern matches, giving the maximal leading digit run; otherwise VersionError naming the input |
| ChromeVersion.IsCompatible | src/webdriver_manager/version.py:75 | true exactly when the two majors are equal; the Chrome version's error is reported first |
| ChromeVersion.IsCompatibleSymmetric | src/webdriver_manager/version.py:75 | swapping the arguments of a successful check gives the same answer |
| ChromeVersion.IsCompatibleReflexive | src/webdriver_manager/version.py:75 | a valid version is compatible with itself |
| ChromeVersion.VersionExampleRelease | src/webdriver_manager/version.py:58-61 | "94.0.4606.81" gives "94" |
| ChromeVersion.VersionExampleSuffix | src/webdriver_manager/version.py:58 | "94.0.4606.81-beta" gives "94": only a prefix must match |
| ChromeVersion.VersionExample | src/webdriver_manager/version.py:58-61 | any string starting with "94.0.4606.81" gives "94" |
| ChromeVersion.ThreeGroupsRejected | src/webdriver_manager/version.py:59-60 | "94.0.4606" raises VersionError |
| AppState.Added | src/gvars.py:48-49 | appended at the end unless already there: old order kept, membership grows by exactly the name, no duplicates introduced, unchanged when present |
| AppState.AddedIdempotent | src/gvars.py:58-59 | adding a name twice is adding it once |
| AppState.AddedAll | src/gvars.py:58-59 | adding names in turn keeps the old list as a prefix, adds exactly those names and keeps the list duplicate-free |
| AppState.AddedAllFresh | src/gvars.py:58-59 | distinct new names are appended in order |
| AppState.ApplicationState.constructor | src/gvars.py:14-19 | no driver, both lists empty, the flag False |
| AppState.ApplicationState.SetDifferentFileDependingOnLanguage | src/gvars.py:27-29 | sets the flag and nothing else |
| AppState.ApplicationState.SetWebDriver | src/gvars.py:37-39 | sets the driver and nothing else |
| AppState.ApplicationState.AddCompletedKata | src/gvars.py:46-49 | the completed list becomes Added(old, name), stays duplicate-free; the other fields are untouched |
| AppState.ApplicationState.AddPushedKata | src/gvars.py:56-59 | the pushed list becomes Added(old, name), stays duplicate-free, and the name is then pushed; the other fields are untouched |
| AppState.ApplicationState.Cleanup | src/gvars.py:65-69 | quit is sent exactly when a driver was held; the driver is None afterwards; nothing else changes |
| FileManagement.LastDotExtension | src/file_management.py:38 | the text from the last dot after the last separator is an extension |
| FileManagement.SplitExt | src/file_management.py:38 | the two parts give the path back, and the second is empty or a dot with no further dots or separators |
| FileManagement.ExtensionDotFound | src/file_management.py:38 | the last dot after the last separator, with a non-dot between them, starts an extension |
| FileManagement.ExtensionDotIsLast | src/file_management.py:38 | a dot that starts an extension is the last dot, lies after the last separator, and has a non-dot between them |
| FileManagement.SplitExtDot | src/file_management.py:38 | the extension is non-empty exactly when some dot is the last of the final path component with something other than a dot before it there, and then it starts at that dot |
| FileManagement.PathJoin | src/file_management.py:40 | an absolute second part replaces the first; otherwise exactly one separator joins them |
| FileManagement.LanguageFileName | src/file_management.py:39 | the language is inserted before the extension: the result is the stem, "-", the language and the extension, so it ends with "-" + language + ext, is one character plus the language longer than the name, and starts with a separator exactly when the name does |
| FileManagement.LanguageFileNameExample | src/file_management.py:38-39 | "katas.md" with "python" gives "katas-python.md" |
| FileManagement.TargetPathChoice | src/file_management.py:67-71 | the language file is the target exactly when the split flag is set and the language is non-empty; otherwise the main file |
| FileManagement.UniversalNewlinesNoReturn | src/file_management.py:100 | no "\r" is left after text-mode reading, and the text does not grow |
| FileManagement.UniversalNewlinesPlain | src/file_management.py:100 | text without "\r" is read unchanged |
| FileManagement.UniversalNewlinesAppend | src/file_management.py:100 | reading distributes over a concatenation that does not split a "\r\n" |
| FileManagement.SplitLinesConcat | src/file_management.py:101 | the lines iterated over a file give its text back |
| FileManagement.SplitLinesBreaks | src/file_management.py:101 | no line is empty, each line but the last ends with its only "\n" |
| FileManagement.SplitLinesAppend | src/file_management.py:101 | a text ending at a line break splits into its lines followed by those of the next text |
| FileManagement.ExtractTitle | src/file_management.py:103 | the name is stripped and has no "["; a line whose only "#" is the first gives "" |
| FileManagement.GatherIff | src/file_management.py:101-104 | a name is collected exactly when some line gives it |
| FileManagement.GatherAppend | src/file_management.py:101-104 | every line counts wherever it sits, code fences included |
| FileManagement.GatherAt | src/file_management.py:101-104 | a line giving a name puts that name in the set |
| FileManagement.ScannedTitlesIff | src/file_management.py:95-104 | a name is scanned exactly when some listed file with the extension exists and has a title line giving it |
| FileManagement.ScanStep | src/file_management.py:96-109 | one more listed file adds its titles and may be the missing main file |
| FileManagement.ScanLines | src/file_management.py:101-104 | the loop collects exactly the names of the title lines (a line starting with "#" whose lowered text contains "kyu") |
| FileManagement.TitlesInIff | src/file_management.py:102-103 | the names of a file are exactly those extracted from its title lines |
| FileManagement.FileSystem.Append | src/file_management.py:77-78 | the file becomes its old content (empty when missing) followed by the text |
| FileManagement.FileManager.constructor | src/file_management.py:22-25 | stores the paths, joins the main file path and starts with an empty cache |
| FileManagement.FileManager.GetLanguageFilePath | src/file_management.py:37-41 | returns the language path; the first call adds exactly that entry to the cache, later calls leave it unchanged |
| FileManagement.FileManager.AddKata | src/file_management.py:67-78 | appends the content to the target file; the cache grows only on the language path |
| FileManagement.FileManager.ScanListing | src/file_management.py:92-112 | the set is exactly the scanned titles; only a missing main file is created, empty |
| FileManagement.FileManager.ReadKatas | src/file_management.py:114-115 | afterwards a name is pushed exactly when it was pushed before or was scanned; the earlier names keep their places; nothing else in the state changes |
| WebScraper.ExtractKata | src/web_scraper.py:56-77 | a Kata with the lowered language exactly when every part is present, the name is not pushed and the level contains "kyu"; None for a pushed name or any missing part; the error only for a missing language attribute |
| WebScraper.ExtendsRefl | src/web_scraper.py:89 | an empty run extends the state it starts from |
| WebScraper.ExtendsStep | src/web_scraper.py:97-101 | accepting a new kata keeps the names distinct, unpushed at entry and pushed in order |
| WebScraper.ScanPassExtends | src/web_scraper.py:93-101 | one pass only appends new katas and records them in both lists |
| WebScraper.CollectExtends | src/web_scraper.py:90-104 | the whole loop only appends new katas and records them in both lists in acceptance order |
| WebScraper.CollectStops | src/web_scraper.py:90-104 | the loop stops on the count only once `k` katas are held; a stop on an error or on running out of passes holds fewer; a missing marker stops at that pass, and every earlier pass had the marker |
| WebScraper.ScanPassBelowStep | src/web_scraper.py:94-95 | a pass that stops on an error holds fewer than `pushStep` katas |
| WebScraper.CollectProperties | src/web_scraper.py:79-106 | at most `k` katas, none for k ≤ 0; distinct names not pushed at entry; both lists take them in order; every level contains "kyu"; fewer than `k` means the count was not the reason to stop, and a missing marker stops at that pass |
| WebScraper.ScanPassSeen | src/web_scraper.py:59-60 | solutions whose names are all pushed give nothing |
| WebScraper.CollectSeen | src/web_scraper.py:90-104 | a second run over exported pages collects nothing and changes nothing |
| WebScraper.ScanPassGrows | src/web_scraper.py:94-102 | a pass only adds to the pushed list |
| WebScraper.ScanPassComplete | src/web_scraper.py:94-102 | a pass over solutions that cannot raise does not fault; if it ends below the count, the name of every exportable solution it saw is pushed, so none was missed |
| WebScraper.ScanPassReachesCount | src/web_scraper.py:90-102 | a pass over solutions that cannot raise, holding at least as many distinct fresh exportable names as are still wanted, ends with exactly `push_step` katas |
| WebScraper.ScanPassConcat | src/web_scraper.py:94-102 | the pass over two stretches of solutions is the pass over the first, then, unless it faulted, the pass over the second |
| WebScraper.CollectComplete | src/web_scraper.py:79-106 | when the first page holds, before anything that can raise, at least `k > 0` distinct fresh exportable names, exactly `k` katas come back after one pass and the pushed list grows by exactly their `k` names; the loop stops on the count, or on the missing marker |
| WebScraper.CollectTwoOfThreeNew | src/web_scraper.py:79-106 | a page with two fragments already pushed and three new ones, read for two katas, gives exactly two katas and a pushed list grown by exactly two names |
| WebScraper.ScanSolutions | src/web_scraper.py:93-101 | the inner loop computes ScanPass and leaves the ledger as it says |
| WebScraper.GetCompletedKatas | src/web_scraper.py:89-106 | the method returns what Collect gives and leaves the ledger as it says |
| Authentication.CredentialsValidator.constructor | src/auth/credentials_validator.py:13-24 | stores the driver, the attempt bound (default 3) and the delay (default 1) |
| Authentication.CredentialsValidator.Attempts | src/auth/credentials_validator.py:45-63 | succeeds exactly when one of the first `maxAttempts` outcomes succeeds, stopping at the first; otherwise exactly max(0, maxAttempts) tries; sleeps = tries − 1 |
| Authentication.CredentialsValidator.Authenticate | src/auth/credentials_validator.py:39-65 | masking comes first and only the masked e-mail is logged; True exactly when an attempt succeeds; otherwise AuthenticationError naming the bound |
| Authentication.ValidCredentialsMask | src/auth/credentials_validator.py:39-42 | credentials that passed construction always mask |
| Authentication.FailureMessageDefault | src/auth/credentials_validator.py:65 | with the default bound the message is "Authentication failed after 3 attempts" |
| Configuration.NewConfiguration | src/auth/configuration.py:39-45 | succeeds exactly when every required key holds a non-empty string; otherwise ConfigurationError listing the missing keys |
| Configuration.Get | src/auth/configuration.py:58 | the default exactly when the key is absent, else the stored value |
| Configuration.Lookup | src/auth/configuration.py:73-75 | ConfigurationError exactly when the key is absent; otherwise what `get` gives |
| Configuration.LookupRequired | src/auth/configuration.py:73-75 | a required key of a validated configuration is found with a non-empty string |
| Configuration.LookupRequiredWhenValidated | src/auth/configuration.py:77-100 | a property of a validated configuration gives its key's non-empty value |
| Configuration.MailAddress | src/auth/configuration.py:78-80 | the MAIL_ADDRESS lookup: an error exactly when the key is absent |
| Configuration.Password | src/auth/configuration.py:83-85 | the PASSWORD lookup: an error exactly when the key is absent |
| Configuration.Username | src/auth/configuration.py:88-90 | the USERNAME lookup: an error exactly when the key is absent |
| Configuration.LocalRepoPath | src/auth/configuration.py:93-95 | the LOCAL_REPO_PATH lookup: an error exactly when the key is absent |
| Configuration.KataFileName | src/auth/configuration.py:98-100 | the KATA_FILE_NAME lookup: an error exactly when the key is absent |
| Configuration.PushStep | src/auth/configuration.py:103-105 | 5 when the key is absent; TypeError for a key without a value; otherwise the integer parse of the text or ValueError |
| Configuration.PushStepRoundTrip | src/auth/configuration.py:105 | a step stored as str(n) is read back as n |
| Configuration.PushStepRejectsWord | src/auth/configuration.py:105 | text starting with a letter is a ValueError |
| Text.ParseIntOfIntToString | src/auth/configuration.py:105 | int(str(n)) == n for every integer |
| Text.ParseIntSpacing | src/auth/configuration.py:105 | a file separator (U+001C) before the digits is not stripped, so the text is a ValueError |
| Text.ParseIntPadded | src/auth/configuration.py:105 | ASCII whitespace (and the `isspace` characters from U+007F up) around a run of digits is stripped, and the value is that of the digits |
| Text.ParseIntBadStart | src/auth/configuration.py:105 | text that starts with something other than whitespace, a sign or a digit, and does not end in whitespace, is a ValueError |
| Export.ExportBlockShape | src/main.py:29 | a block starts with its heading line and "#", and ends with the closing fence and a blank line |
| Export.ExportBlockExample | src/main.py:29 | the block of "Two Sum" at 6 kyu is "# Two Sum [6 kyu] #0\n\n```python\npass\n```\n\n" |
| Export.HeadingIsTitleLine | src/file_management.py:102 | a heading line is a title line whenever the level contains "kyu" in any case |
| Export.HeadingTitle | src/file_management.py:103 | the extractor recovers a trimmed name without "[" from its heading line |
| Export.HeadingTitleExample | src/file_management.py:103 | the heading of "Two Sum" gives "Two Sum" back |
| Export.SavedTitleRecovered | src/main.py:29 | a block appended after text ending at a line break gives back the kata's name when its file is read |
| Export.Writes | src/main.py:66-67 | one write per kata, in order, each to the file its own language routes to |
| Export.AppendsPerFile | src/main.py:66-67 | after the writes each file holds its old text followed by the texts written to it, in order |
| Export.MainFileOnly | src/main.py:66-67 | without the split flag every block goes to the main file in kata order |
| Export.SavedNamesReadBack | src/main.py:65-67 | every saved kata whose name round-trips is found again by the seeding parser in the file it went to |
| Export.SaveAndCommitKata | src/main.py:29-30 | the block, numbered with the size of the pushed list, is appended to the kata's target file; the language-file cache gains the kata's language exactly when the flag is set and the language is non-empty, and is otherwise unchanged |
| Export.SaveAll | src/main.py:66-67 | the files end up as the writes applied in order, and the language-file cache ends as CacheAfter gives it |
| Export.CacheAfterEntries | src/file_management.py:37-41 | after saving, the cache keys are the old keys plus the non-empty languages saved while the flag is set; those map to their naming-rule paths and every other entry is kept |
| Export.ExportCompleted | src/main.py:65-67 | the pushed list grows by the names the scraper accepted, the completed list is the scraper's, and the driver and the language flag are unchanged; a scraper fault, or passes that run out before the scraper returns, give an error, and then no file or cache entry changes; when the scraper returns on the count or on a missing marker, its katas are saved, every block, routed by the flag, carries the same number (the pushed count after scraping), and the cache ends as CacheAfter gives it |

## Left out

- I/O is left out. Loading the environment file (`_load_configuration`, dotenv), `os.listdir`, opening files, `validate_paths` and the path validator modules are not modelled. The file system is a given map and the directory listing is a parameter.
- IOError while reading or writing is left out. Reading and appending always succeed in the model.
- The git commit in `save_and_commit_kata` (`os.system`) is left out, and so is the shell interpolation of the kata name.
- Logging is left out. Only the value logged for the e-mail in `authenticate` is returned.
- Selenium and BeautifulSoup are left out. The element lookups and HTML-to-text of `get_kata_*` are fields of the solution values. `load_more_solutions` is the per-pass marker flag.
- `_try_authentication`'s browser interaction is left out. Only its URL test is modelled, over an outcome oracle.
- `time.sleep` is counted, not performed.
- WebScraper.GetCompletedKatas: the source loop never ends while the marker stays present and no new kata appears. The model runs over a finite sequence of passes and reports PassesExhausted when they run out. Export.ExportCompleted then saves nothing and returns Unfinished, because the source would not yet have reached its save loop.
- `get_chrome_version` is left out: subprocess and the Windows registry. chrome_manager.py, manager.py and system_utils.py are not part of this model: they download and check the driver.
- `main()` is left out, apart from lines 65-67: its exception-to-`exit(1)` mapping, the `finally` cleanup, browser start and navigation. `ApplicationState.Cleanup` models the cleanup call itself.
- main.py:46 reads `config.different_file_depending_on_language`, which Configuration does not define. That line is not modelled. The split flag is read from the application state, as add_kata does.
- version.py imports VersionError from an exceptions module that does not define it. The model uses VersionError as an error value anyway.
- `Kata.__str__` is left out: it only renders the fields.
- Text.Lower: only ASCII letters are lowered, since the model has no Unicode case tables. IsDigit: only ASCII digits count, while `\d` and `int` also accept other Unicode digits.
- FileManagement.UniversalNewlines: only "\r\n" and "\r" are translated. Decoding and the encoding of files are left out.
- FileManagement.FileManager.ReadKatas: it states which names are pushed, not their order. The source adds them by iterating a Python set, whose order is unspecified.
- Configuration.PushStep: `int()` is modelled for base-ten literals with an optional sign, underscores between digits and surrounding whitespace. The whitespace stripped is ASCII space, tab, newline, vertical tab, form feed and carriage return, plus the `isspace` characters from U+007F up; U+001C to U+001F are not stripped. Non-ASCII decimal digits are left out.
- Configuration.MailAddress, Configuration.Password, Configuration.Username, Configuration.LocalRepoPath, Configuration.KataFileName: their contracts give the value only for a validated configuration and the error when the key is absent. An unvalidated configuration with a key stored as None is covered by Lookup only.
