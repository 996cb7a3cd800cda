# Himmelblau, modelled and proved in Dafny

Himmelblau lets Linux hosts log users in against Azure Entra ID. This project models the parts of
it that decide something over many steps, and proves what they keep to on every input and in every
run:

- the PAM client's login protocol (`Pam`, `AuthProtocol`, `AuthRuns`, `AuthExchanges`, `AuthClient`),
  with the race between a security key and a phone (`FidoRace`), the Hello PIN rules (`HelloPin`) and
  the QR code drawn in half blocks (`QrRender`);
- the two socket read loops (`Socket`, `ClientSync`, `Broker`);
- `aad-tool configure-pam`, which edits PAM stacks: one file (`Lines`, `PamLines`, `PamEdits`,
  `PamMeaning`), a plan over many (`PamRuns`), and the whole command (`PamConfig`, `PamTheorems`,
  `PamFiles`);
- the SELinux policy editor, on characters (`Braces`, `SelinuxScanner`) and on tokens
  (`SelinuxPolicy`, `SelinuxTheorems`, `SelinuxBlocks`);
- the maintenance scripts: the dependency clean-up (`CleanupDeps`), the merge of `[replace]` entries
  and the reading of masks from them (`Sorting`, `CargoReplace`, `MaskedDeps`), the analysis cache
  (`AnalysisCache`) and the sample configuration (`CommentText`, `ConfText`, `ConfExample`).

`Text` holds what they share. `dafny verify dfyconfig.toml` checks everything.

## How it is modelled

- **Programs and their meaning.** Where the source updates variables or objects, the model has
  methods and classes; each is proved equal to a function of its inputs or of the old state, and
  the theorems are about those functions.
- **Runs.** A login is followed against an arbitrary list of *worlds*: what the daemon replies, what
  the user types and what the devices do. A run that never ends is covered by all its finite parts;
  a prompt nobody answers leaves the run `Waiting`. The clean-up is followed over arbitrary events,
  crashes and restarts among them.
- **Arithmetic.** The poll counter is a 32-bit integer that wraps, as in a release build; a debug
  build would panic there. PIN counts are cast to 32 bits. The digit arithmetic is done in eight
  bits, and the model shows that no step of it wraps.
- **Text.** White space is Unicode's `White_Space`. Lengths the source takes in bytes are taken in
  UTF-8 bytes. Case folding, JSON parsing, regular expressions, line filling and troff cleaning are
  parameters or are given by what they promise. Filling and line splitting are taken to touch white
  space only; the separators U+001C to U+001E, which Python also splits at, cannot occur in XML.
- **Policies.** The character model is for the brace counting of one block. The token model is for
  whole policies: openings of blocks, closings, and rules. A rule's `grants` says whether the text the
  search took for a rule is one, rather than part of a comment or of a `neverallow`; `closed` whether
  its semicolon follows the brace, as the search for merging demands and the one for permissions does
  not; `placed` marks the rules the tool adds.
- **Files.** A PAM file has a text and may be unwritable; a write to it then fails and leaves it as it
  was. What a dry run prints is kept as a list of texts, one for each insertion, or none where the line
  is present.

## Where the code falls short of its promise

Each of these is proved for all inputs; where the promise holds for some of them, the theorem named
says for which.

- Polling is meant to be taken up once. It is, until the counter has wrapped: after 2^31 + 1 polls a
  second start is accepted (`PollingAcceptedExactly`, `PollingTakenUpOnce`, and the run in
  `SecondStartIsAccepted`).
- A reply whose length is a multiple of 1024 is not recognised as finished and waits for the timeout,
  to which it can be lost (`WholeMessageExactly`, `FullChunksWaitForTheTimeout`,
  `FullReplyCanBeLost`). Of all other lengths some way of splitting them gets through at once
  (`LengthDecides`).
- The broker's read loop returns a message whole however it is split, exactly when no proper
  beginning of it parses (`ChunkingIndependentExactly`). The check it repeats on a timeout can never
  succeed (`RecheckNeverSucceeds`).
- The PIN policy is exact up to 2^32 characters and no further (`PolicyIsExactBelowTheCast`). This is
  about the function alone: no prompt hands it a PIN of that length.
- A rule in a comment, or a `neverallow`, swallows a denial (`CommentedRuleSwallowsDenial`,
  `AllDeniedGrantedExactly`). A permission that such a rule already names is dropped before any rule is
  looked for (`ProcessGrantsExactly`).
- A dry run of `configure-pam` succeeds or fails as the real run would, exactly unless the plan comes to
  an unwritable file before a missing one (`DryRunAnswersExactly`, `UnwritableIsNotForeseen`). The text
  it prints for an insertion is the one the real run writes, exactly if the line is present or no
  earlier insertion adds to that file; with one file for several stacks it is another one
  (`DryRunPrintsExactly`, `SharedFileIsPrintedOtherwise`).
- A mask that fails after `Cargo.toml` was written is committed with the next one, without its
  directory (`LeftoverEntryIsCommitted`). The masks committed so are told exactly from the history
  (`MasksHaveDirectoriesExactly`).
- A directory left behind by a crash blocks its dependency until someone deletes it
  (`CrashBlocksMask`). A crash inside the masking script itself is not even noticed by the next run
  (`CrashInMaskScriptIsNotNoticed`).
- The summary's error count is read under another name than the one counted, so it shows zero
  (`StateManager.Summary`).
- The two scripts that merge `[replace]` entries differ: one drops duplicates, the other adds them
  again on every call (`DeduplicatingMergeIsIdempotent`, `KeepingMergeAddsAgain`). They write the same
  file exactly when no entry occurs twice (`VariantsAgreeExactly`).
- A comment mark covers only the first line of a value. The sample configuration sets nothing but
  what it should, exactly when no commented-out value runs on in a line that sets something
  (`OnlyRequiredSettingsExactly`, `FurtherLinesAreSet`, `RunOnDefaultIsSet`). Parameters written in
  single lines meet that (`GenerateFromSingleLines`).

## Model

| member | source | states |
|---|---|---|
| AuthRuns.RunsConform | src/common/src/auth.rs:1169-1289 | In every run the first request is Init, every later one is of the kind the response before it demands, Init is sent once plus once per denial, only four codes come back, and the code is success exactly when the daemon's last word was Success |
| AuthRuns.PollsAreNumbered | src/common/src/auth.rs:688-729 | Poll j of any run carries j modulo 2^31 + 1, across restarts and whatever the daemon answers, and the counter field is the one that goes with it |
| AuthRuns.NextPoll | src/common/src/auth.rs:688-729 | One exchange either sends the poll with the next number or leaves the counter alone |
| AuthRuns.PollingAcceptedExactly | src/common/src/auth.rs:640-711 | A request to start polling is taken up exactly when the polls so far number a multiple of 2^31 + 1; otherwise the login is aborted |
| AuthRuns.PollingTakenUpOnce | src/common/src/auth.rs:688-711 | While fewer than 2^31 + 1 polls were sent, polling is taken up at most once, before the first poll |
| AuthRuns.SecondStartIsAccepted | src/common/src/auth.rs:688-729 | A run that starts polling, polls 2^31 + 1 times in all and is asked to start again: the second start is taken up |
| AuthRuns.PollsPauseForTheInterval | src/common/src/auth.rs:704-729 | Every poll, and nothing else, is preceded by a pause of the interval last agreed, two seconds if none was |
| AuthRuns.IntervalIsKept | src/common/src/auth.rs:704-729 | The interval kept is that of the last polling taken up in the whole run |
| AuthRuns.CredentialsComeFromTokenOnceOrPrompt | src/common/src/auth.rs:762-814 | PAM's token answers the first Password or Pin response of a run and nothing else; every other credential is the user's answer to the last prompt of the same exchange |
| AuthRuns.TokenIsKeptUntilAskedFor | src/common/src/auth.rs:762-795 | After any run the token is still there exactly if no Password or Pin response has come |
| AuthRuns.NewSecretsAreConfirmed | src/common/src/auth.rs:887-959 | In every run a new PIN or password that is sent is acceptable and was the answer to the last two prompts of that exchange |
| AuthExchanges.ExchangesComeTo | src/common/src/auth.rs:1169-1289 | What every exchange of every run comes to, as an if-and-only-if for each outcome: which request is sent with which credential, PIN, password, poll number or assertion; when the login is aborted; when it waits at a prompt; when it succeeds. Told from the reply, the answers typed, the devices, the token not yet used and the polls so far; new PINs of fewer than 2^32 characters |
| AuthExchanges.NewPinsAreGood | src/common/src/auth.rs:887-959 | A new PIN sent in any run, of any length, has the configured length and six bytes, is no arithmetic progression modulo ten, and reaches all the policy asks for |
| AuthExchanges.PinRuleExactly | src/common/src/auth.rs:897-915 | A PIN is accepted if and only if it meets these rules, below 2^32 characters; an accepted one meets them at any length |
| AuthExchanges.NewSecretComesTo | src/common/src/auth.rs:897-959 | A new secret is sent exactly if it was confirmed after failing attempts; otherwise the login is aborted exactly if a prompt was dismissed |
| AuthExchanges.FidoStep | src/common/src/auth.rs:1010-1104 | Which device is asked and which assertion is sent, from key, phone, Bluetooth, service and the order of the two outcomes |
| AuthProtocol.SecretTakenExactlyWhenConfirmed | src/common/src/auth.rs:887-959 | A secret is taken exactly when failing attempts are followed by that secret, acceptable, and by the same once more; the prompts answered are just those |
| AuthProtocol.EnteredMeansConfirmed | src/common/src/auth.rs:1106-1163 | From a secret taken, the attempts before it can be told: each refused, or followed by another secret |
| AuthProtocol.ConfirmedMeansEntered | src/common/src/auth.rs:1106-1163 | Any number of failing attempts and then an acceptable secret typed twice leads to that secret, whatever is typed later |
| AuthProtocol.FidoAnswers | src/common/src/auth.rs:1010-1104 | The fallback is requested exactly when neither device is usable, an assertion sent is one a device gave, and with both devices the login aborts exactly when both fail |
| AuthClient.Client.constructor | src/common/src/auth.rs:1262-1271 | A new client has PAM's token, no poll and an interval of two seconds: the start of every run |
| AuthClient.Client.HandleMfaPoll | src/common/src/auth.rs:640-711 | The handler's new state and answer are those the run theorems speak about |
| AuthClient.Client.HandleMfaPollWait | src/common/src/auth.rs:713-729 | The same for the next poll, wrap-around included |
| AuthClient.Client.HandlePassword | src/common/src/auth.rs:762-795 | The token is taken out of the client and sent, or the user is asked |
| AuthClient.Client.HandlePin | src/common/src/auth.rs:961-989 | The same for a PIN |
| AuthClient.Client.HandlePrompt | src/common/src/auth.rs:797-814 | One prompt: its answer is sent, a dismissal aborts |
| AuthClient.Client.AskTwice | src/common/src/auth.rs:894-950 | The loop that asks for a secret and its confirmation ends as the specification of repeated attempts says |
| AuthClient.Client.HandleSetupPin | src/common/src/auth.rs:887-959 | The PIN entered so is sent with its setup request |
| AuthClient.Client.HandleChangePassword | src/common/src/auth.rs:1106-1163 | The password entered so is sent |
| AuthClient.Client.HandleFido | src/common/src/auth.rs:1010-1104 | The wait for Bluetooth and the choice of devices give the answer `FidoAnswers` is about |
| AuthClient.Client.RequestResponse | src/common/src/auth.rs:1169-1232 | One exchange changes state and answers as the step of a run does, for every kind of response |
| AuthClient.Authenticate | src/common/src/auth.rs:1246-1289 | The request loop returns the code of the run it plays; without a daemon the login is ignored; success is returned only if the daemon's last word was Success |
| FidoRace.InvariantHolds | src/common/src/auth.rs:507-577 | What holds in every state of every interleaving of key, phone and the task that selects between them |
| FidoRace.RaceIsOrderIndependent | src/common/src/auth.rs:541-577 | Whatever the interleaving, the race succeeds exactly when one of the two paths does, with an assertion of a path that succeeded |
| FidoRace.RaceFinishes | src/common/src/auth.rs:507-577 | No interleaving has more than four steps, and once both paths have ended the selecting task can always go on to its result |
| FidoRace.RaceResultsAreTheInterleavings | src/common/src/auth.rs:541-577 | The results some interleaving reaches are exactly those of the two orders of arrival |
| HelloPin.SimplePinClosedForm | src/common/src/hello_pin_complexity.rs:26-50 | From six bytes on a PIN is simple exactly when it is an arithmetic progression modulo ten |
| HelloPin.HundredSimplePins | src/common/src/hello_pin_complexity.rs:26-50 | Of each length from six on there are exactly one hundred simple PINs |
| HelloPin.DeltaLeadsTo | src/common/src/hello_pin_complexity.rs:43-46 | The delta of two digits is the one number below ten that leads from the first to the second |
| HelloPin.ClassesPartitionPin | src/common/src/hello_pin_complexity.rs:56-60 | The four class counts add up to the length |
| HelloPin.ClassesAreRanges | src/common/src/hello_pin_complexity.rs:56-60 | The counts of digits, small and capital letters are those of the three ASCII ranges |
| HelloPin.AcceptedReaches | src/common/src/hello_pin_complexity.rs:52-94 | An accepted PIN reaches all five minimums and is no shorter than the class minimums together; a PIN below 2^32 characters that reaches them is accepted |
| HelloPin.PolicyIsExactBelowTheCast | src/common/src/hello_pin_complexity.rs:56-60 | Acceptance and the minimums agree for all PINs of a length, under all policies, if and only if the length is below 2^32 |
| QrRender.GenerateUnicodeQr | src/common/src/auth.rs:816-844 | The loops draw the picture the lossless theorem is about, and an encoding error is passed on |
| QrRender.ImageAt | src/common/src/auth.rs:821-841 | Every character of the picture, addressed by row and column |
| QrRender.RenderIsLossless | src/common/src/auth.rs:816-844 | The picture has the right number of rows and columns, and every module of code and border can be read back from it |
| QrRender.RenderIsInjective | src/common/src/auth.rs:816-844 | Two codes with the same picture have the same size and modules |
| Socket.Fill | src/common/src/client_sync.rs:134-160 | A read fills the front of the buffer and leaves the rest of it as it was |
| ClientSync.CallAndWait | src/common/src/client_sync.rs:119-191 | The wait ends in the first turn that does not go on, with its outcome; what is decoded is exactly the bytes received, without padding; it ends by the time the clock passes the timeout |
| ClientSync.WholeMessageExactly | src/common/src/client_sync.rs:134-191 | Of a message arriving in chunks the bytes up to the first chunk below 1024 are decoded, so it is decoded whole without further waiting exactly when all but the last fill the buffer and the last does not |
| ClientSync.FullChunksWaitForTheTimeout | src/common/src/client_sync.rs:134-191 | A message of full chunks only, on a quiet connection, waits until the timeout, and may be lost |
| ClientSync.FullReplyCanBeLost | src/common/src/client_sync.rs:134-175 | A world in which all bytes of a reply have arrived and the wait ends in a timeout |
| ClientSync.ClosingEndsFullChunks | src/common/src/client_sync.rs:134-191 | A message of full chunks only is decoded whole as soon as the connection is closed |
| ClientSync.SilenceIsWaitedOut | src/common/src/client_sync.rs:134-175 | Before the first bytes, reads without data are waited out and add nothing |
| ClientSync.OutcomesSayWhatWasMet | src/common/src/client_sync.rs:134-191 | A timeout, an error and a failing clock are reported only where they were met, and what is decoded is all that came |
| ClientSync.LengthDecides | src/common/src/client_sync.rs:134-191 | Some way of splitting a message gets it decoded whole without waiting if and only if its length is no multiple of 1024 |
| Broker.ReadReply | src/broker/src/main.rs:178-211 | The loop over the reused buffer collects what the specification collects |
| Broker.RecheckNeverSucceeds | src/broker/src/main.rs:178-211 | The check repeated on a timeout never changes the result |
| Broker.SplitsAreCollected | src/broker/src/main.rs:178-211 | However a message is split into reads, it is returned whole if no proper beginning of it is complete |
| Broker.ChunkingIndependentExactly | src/broker/src/main.rs:178-211 | It is returned whole for all splits if and only if no proper beginning of it is complete |
| Broker.UnfinishedRepliesEnd | src/broker/src/main.rs:178-211 | A reply that never becomes complete is returned as far as it came when the stream ends, is a timeout when a read times out and an error when a read fails |
| Broker.ForwardRequest | src/broker/src/main.rs:154-211 | Errors of connecting, writing, setting the timeout, reading and decoding are told apart; otherwise the text collected is returned |
| Broker.WholeRepliesComeThrough | src/broker/src/main.rs:154-211 | A message that parses only as a whole is returned whole for every split into reads, or refused for its encoding |
| Broker.AcquireTokenInteractively | src/broker/src/main.rs:215-282 | The token request is forwarded exactly after a login that the daemon closed with Success and that opened with a forced Init for the request's own account; its answer is that of forwarding, with all errors of it |
| PamLines.FindPlace | src/cli/src/main.rs:145-170 | The place is before the first match of one predicate, failing that behind the last match of the other, failing that at the end |
| PamLines.IsPresent | src/cli/src/main.rs:119-141 | A module line counts as present exactly when some line of that stack names the module with the same set of options |
| PamLines.EditText | src/cli/src/main.rs:109-182 | None if the line is present, otherwise the lines of the file with the module line at its place |
| PamConfig.PamStacks.InsertModuleLine | src/cli/src/main.rs:109-182 | The file is rewritten as specified unless the line is present; a file that cannot be read or written is an error; a dry run writes nothing, prints the very text for that file and fails only if the file cannot be read |
| PamConfig.PamStacks.ConfigurePam | src/cli/src/main.rs:217-339 | The files of the four stacks are detected, the first stack without one is an error, and all insertions of the plan are made in order up to the first error; a dry run changes no file, prints the text of every insertion from the files as they are, and reports the first missing one |
| PamRuns.RealInsertions | src/cli/src/main.rs:171-179 | A run that writes performs the plan and prints nothing |
| PamRuns.DryInsertions | src/cli/src/main.rs:171-179 | A run that only prints leaves all files alone, prints every text and ends at the first missing file |
| PamRuns.MissingThen | src/cli/src/main.rs:268-336 | The first missing file of a plan is that of its first part, or else that of the rest |
| PamRuns.InsertionsThen | src/cli/src/main.rs:268-336 | A plan is carried out part by part, really or as a dry run, and an error in one part ends the whole |
| PamTheorems.ConfigureIsIdempotent | src/cli/src/main.rs:217-339 | Configuring again, detection included, changes no byte and has the same result, after an error too |
| PamRuns.PerformIsIdempotent | src/cli/src/main.rs:119-141 | The same for any sequence of edits and any way of editing that is done once made and stays done, whatever roles share a file |
| PamTheorems.EditingSettles | src/cli/src/main.rs:119-141 | Inserting module lines is such a way: a line is present once inserted and no other insertion takes it away |
| PamTheorems.SuccessLeavesLines | src/cli/src/main.rs:217-339 | A run that goes through leaves every line of its plan present |
| PamRuns.PerformFailsExactly | src/cli/src/main.rs:109-182 | A plan fails exactly at the first file that, before the run, is missing or lacks its line and cannot be written |
| PamRuns.FailureStopsThePlan | src/cli/src/main.rs:268-336 | A plan that fails has performed exactly the insertions in front of the failing one |
| PamTheorems.DryRunAnswersExactly | src/cli/src/main.rs:172-179 | The dry run's answer, success or which error, is that of the real run if and only if the plan does not come to such an unwritable file before a missing one |
| PamTheorems.UnwritableIsNotForeseen | src/cli/src/main.rs:172-179 | A single unwritable file for all stacks: the dry run succeeds, the real run fails |
| PamTheorems.DryRunPrintsExactly | src/cli/src/main.rs:171-179 | For an insertion the real run reaches, the text printed is the one written if and only if the file has the line already or no earlier insertion adds to that file |
| PamRuns.PreviewIsWrittenExactly | src/cli/src/main.rs:171-179 | The same for any way of editing that settles and adds to the file each time |
| PamTheorems.SharedFileIsPrintedOtherwise | src/cli/src/main.rs:268-313 | A single empty file for all stacks: the run succeeds, and the account text printed is not the one written |
| PamTheorems.DetectedExactly | src/cli/src/main.rs:185-214 | The files detected for a stack are exactly its candidates that exist, sorted, each once; there is an error exactly if none exists |
| PamTheorems.DetectedAreThere | src/cli/src/main.rs:185-214 | Without files named on the command line no file of the plan is ever missing |
| PamFiles.StacksFoundExactly | src/cli/src/main.rs:226-266 | For each stack the file named, or exactly the existing ones of its four literal paths, sorted, each once; otherwise the first stack that has none |
| PamFiles.PlanExactly | src/cli/src/main.rs:268-336 | The plan has every file of every stack for the role of that stack and nothing else; asked to unseal, only the auth files |
| PamMeaning.PlanInOrder | src/cli/src/main.rs:268-336 | Auth files come first, then account, session and password files |
| PamFiles.KnownFilesHaveTheirLine | src/cli/src/main.rs:217-339 | With no file named and no error, every existing file of the list of a stack has the line of that stack |
| PamFiles.FilesOfOneStackGainOneLine | src/cli/src/main.rs:217-339 | A file in the list of one stack only has gained the line of that stack and nothing else |
| PamFiles.CommonFilesGainTheirLine | src/cli/src/main.rs:226-339 | So common-auth, common-account, common-session and common-password each gain the line of their own stack |
| PamFiles.OtherFilesAreLeftAlone | src/cli/src/main.rs:217-339 | A file in no list is as it was |
| PamFiles.UnsealReachesTheAuthStack | src/cli/src/main.rs:268-298 | Asked to unseal, the auth files gain the unseal line and every other file is as it was |
| PamRuns.EditedForOneRole | src/cli/src/main.rs:268-336 | A file that a plan has for one role only is edited once for that role, or not at all where the plan stops before |
| PamTheorems.ConfigureOnlyAddsLines | src/cli/src/main.rs:143-182 | Every file keeps all its lines in order, carriage returns at line ends aside; only module lines are added; no file comes or goes |
| PamTheorems.AddedLinesAreInPlace | src/cli/src/main.rs:268-339 | An auth, account or password line that was absent or in place is absent or in place at the end of any plan over any files, after an error too; for auth lines, of plans without unseal lines |
| PamTheorems.AuthLineEndsFirst | src/cli/src/main.rs:268-294 | An auth line added to a file is its first line at the end of every run, whatever other roles the file serves and whether or not the run fails |
| PamEdits.InsertionLoads | src/cli/src/main.rs:109-182 | After an insertion a file loads what it loaded before and what the new line loads, and nothing else |
| PamEdits.OtherStackDoesNotLoad | src/cli/src/main.rs:120-129 | The module line of one stack never counts as present for another |
| PamEdits.EmbedsTransitive | src/cli/src/main.rs:143-182 | Keeping all lines in order, with module lines added, carries over from one insertion to the next |
| PamEdits.LoadsStrip | src/cli/src/main.rs:117-141 | Whether a line counts as present does not depend on a carriage return lost in rewriting |
| PamMeaning.ModuleLineIs | src/cli/src/main.rs:268-339 | The five module lines, word for word |
| PamMeaning.PresentExactly | src/cli/src/main.rs:119-141 | A line counts as present if and only if it begins with the name of the stack and the words behind the module name are exactly the options of the role, in any order |
| PamMeaning.NamelessIsAbsent | src/cli/src/main.rs:127-130 | A line that does not name the module never counts as present |
| PamMeaning.WordsExactly | src/cli/src/main.rs:120-138 | Splitting at white space gives exactly the stretches without white space that have white space or nothing on both sides |
| PamMeaning.PlaceExactly | src/cli/src/main.rs:143-182 | An auth line goes to the front, session and unseal lines to the end, account and password lines before the first line that speaks of the stack and of one of the modules named for it; all else stays around it |
| SelinuxScanner.ScanBlock | scripts/selinux_fix.py:693-712 | The brace counter stops behind the first closing brace that brings the count to zero, at the start when there is none |
| SelinuxScanner.FindOptionalBlock | scripts/selinux_fix.py:675-712 | A block is found exactly when the search finds a header, from there to the end the counter gives |
| SelinuxScanner.FindInsertionPoint | scripts/selinux_fix.py:715-736 | The place is in front of the block's last closing brace and its indentation, the end when there is no brace |
| SelinuxScanner.BalancedPolicyClosesBlocks | scripts/selinux_fix.py:693-712 | In a balanced policy every optional block found is closed |
| SelinuxScanner.PlaceIsInsideBlock | scripts/selinux_fix.py:715-736 | The place lies at depth one of the block, behind its requirement and before its closing brace |
| SelinuxScanner.SearchFindsAgain | scripts/selinux_fix.py:680-690 | The header is found at the same place after the rule has been added |
| SelinuxScanner.AddToBlock | scripts/selinux_fix.py:1057-1072 | Adding a balanced line to a block keeps the policy balanced and the block findable, its end moved by exactly the length of the line |
| SelinuxScanner.RuleLineIsBalanced | scripts/selinux_fix.py:1025 | The line added for a denial is balanced whatever brace-free words the denial is made of |
| SelinuxPolicy.FindRule | scripts/selinux_fix.py:623-672 | The first rule for source, target and class whose semicolon follows its brace, if any |
| SelinuxPolicy.BlockEnd | scripts/selinux_fix.py:693-712 | The end of a block is where the count comes back to zero for the first time; none when it never does |
| SelinuxPolicy.ApplyRulesToPolicy | scripts/selinux_fix.py:1005-1132 | The loop over the denials gives the policy the theorems are about |
| SelinuxPolicy.ProcessAuditLog | scripts/selinux_fix.py:954-1002 | Categories, missing permissions and application together give the policy the theorems are about |
| SelinuxTheorems.GrantedAfterwards | scripts/selinux_fix.py:1005-1132 | Granted afterwards is exactly what was granted before and every denied permission whose key has no rule or a granting first rule: merging loses nothing and adds nothing else |
| SelinuxTheorems.AllDeniedGrantedExactly | scripts/selinux_fix.py:1005-1132 | Every denied permission is granted if and only if each of them is granted already or the first rule found for its key is a granting one |
| SelinuxTheorems.CommentedRuleSwallowsDenial | scripts/selinux_fix.py:623-672 | A policy with a rule in a comment, for which the denial goes into the comment and is not granted |
| SelinuxTheorems.ApplyingKeepsNesting | scripts/selinux_fix.py:1005-1132 | A well-nested policy is well nested afterwards, for any denials and any places of insertion outside blocks |
| SelinuxTheorems.PlacedRulesAreInTheirBlocks | scripts/selinux_fix.py:1057-1132 | Every rule added that names a type foreign to Himmelblau stands in an optional block that requires that type |
| SelinuxTheorems.ProcessGrantsExactly | scripts/selinux_fix.py:954-1002 | What processing a log grants: what was granted, and each related denied permission that no rule names yet and whose key has no rule or a granting first one |
| SelinuxTheorems.ProcessIsIdempotent | scripts/selinux_fix.py:954-1002 | A second pass over the same log leaves the policy as the first left it |
| SelinuxTheorems.ProcessingKeepsNesting | scripts/selinux_fix.py:954-1002 | Processing any log keeps a well-nested policy well nested |
| SelinuxTheorems.ProcessingPlacesRules | scripts/selinux_fix.py:954-1002 | Whatever the log, every rule added that names a foreign type stands in an optional block that requires that type |
| SelinuxPolicy.LastOptionalEnd | scripts/selinux_fix.py:1081-1096 | The place is the end of some optional block, and no optional block that closes ends behind it |
| SelinuxBlocks.PlaceIsBehindAllBlocks | scripts/selinux_fix.py:1081-1108 | In a well-nested policy every optional block is closed before the place for new blocks and none begins behind it |
| SelinuxBlocks.NewBlocksStandAlone | scripts/selinux_fix.py:1081-1140 | In a well-nested policy a new block stands in no other optional block, old or new |
| SelinuxBlocks.ApplyingKeepsBlocksApart | scripts/selinux_fix.py:1005-1146 | If no optional block lies in another, none does after any denials |
| SelinuxBlocks.BlocksOnlyWhereMissing | scripts/selinux_fix.py:1005-1080 | New blocks are made only for foreign targets of the domains and for sources no block is for; rules are appended outside blocks only between own types; each is the rule of a denial |
| SelinuxBlocks.ApplyingOnlyAdds | scripts/selinux_fix.py:1005-1146 | All tokens of any policy stay, in order; rules may gain permissions; only granting rules and blocks for one type are added |
| SelinuxBlocks.ProcessingOnlyAdds | scripts/selinux_fix.py:954-1002 | The same, and that blocks stay apart, for a whole audit log |
| SelinuxTheorems.RelevantExactly | scripts/selinux_fix.py:521-543 | The denials worked on are exactly those whose source or target is one of Himmelblau's |
| SelinuxTheorems.ExistingIsNamed | scripts/selinux_fix.py:597-608 | The permissions counted as existing are exactly those some rule for the key names, wherever its semicolon stands |
| CleanupDeps.CommittedMasksWereBuiltOnce | scripts/auto_cleanup_deps.py:504-584 | In every history of runs, crashes and restarts each committed set of masks had been built successfully as it stands, no dependency was committed twice, and what was committed for it, its mask, its directory and its policy, is still in the last commit |
| CleanupDeps.CleanAtLoopHead | scripts/auto_cleanup_deps.py:504-584 | In every history the tree equals the last commit at a loop head if and only if no entry of a failed mask is pending and vet has touched no other file |
| CleanupDeps.MasksHaveDirectoriesExactly | scripts/auto_cleanup_deps.py:369-411 | In every history the masks committed without their directories are exactly the entries of failed masks that were pending when another mask was committed |
| CleanupDeps.TidyHistoriesStayClean | scripts/auto_cleanup_deps.py:504-584 | If failing masks leave no entry and vet touches only its own file, the tree is clean at every loop head and every committed mask has its directory |
| CleanupDeps.LeftoverEntryIsCommitted | scripts/auto_cleanup_deps.py:165-215 | A history in which a failed mask is committed with the next one, without its directory |
| CleanupDeps.CrashInsideIsRefused | scripts/auto_cleanup_deps.py:413-431 | In every history, after a crash between the masking of a dependency and its commit or restoration the next run refuses to start |
| CleanupDeps.CrashInMaskScriptIsNotNoticed | scripts/auto_cleanup_deps.py:165-215 | In every history a crash of the masking script after it made the directory leaves the tree as clean as it was, so the next run starts, and the dependency is never masked again |
| CleanupDeps.CrashBetweenIsHarmlessExactly | scripts/auto_cleanup_deps.py:413-431 | After a crash anywhere else the next run starts if and only if no entry of a failed mask is pending and vet has touched no other file |
| CleanupDeps.CrashBlocksMask | scripts/auto_cleanup_deps.py:165-235 | A crash inside a dependency leaves its directory, exactly unless that had just been removed; then, whatever happens later, the tool never masks the dependency again |
| CleanupDeps.LeftoverDirBlocksMask | scripts/auto_cleanup_deps.py:165-235 | In any state in which the dependency is not being worked on, a directory without its commit stays, whatever the tool does, and keeps it from being masked |
| CleanupDeps.RecordsOnlyGrow | scripts/auto_cleanup_deps.py:463-471 | No event, a crash included, makes the tool forget a verdict, a commit or a build |
| CleanupDeps.CleaningUpHelps | scripts/auto_cleanup_deps.py:413-431 | Once the tracked files are restored the next run starts; untracked directories stay |
| CleanupDeps.ResumeSkipsProcessed | scripts/auto_cleanup_deps.py:512-535 | A resumed run offers nothing processed or masked before |
| CleanupDeps.Remaining | scripts/auto_cleanup_deps.py:512-535 | The queue is exactly the dependencies neither masked nor, when resuming, processed |
| CleanupDeps.StartOffers | scripts/auto_cleanup_deps.py:512-541 | The queue is a beginning of the dependencies left, in the order of the list and as often as they occur, cut to the limit exactly where there is one |
| CleanupDeps.RevertMask | scripts/auto_cleanup_deps.py:217-235 | Reverting removes the directory, sets masks and lock file back to the last commit, records the dependency as kept and goes on with the rest |
| CleanupDeps.CommitMask | scripts/auto_cleanup_deps.py:369-411 | The commit has the masks and the lock file as they were built, the policy with the dependency added, and its directory; it is recorded as removed and the rest goes on |
| CleanupDeps.ProcessNext | scripts/auto_cleanup_deps.py:550-584 | One turn of the loop is a history of the machine, gives the dependency the verdict its mask, build and confirmation call for, and leaves the repository as that verdict says: committed, untouched, or without a commit |
| CleanupDeps.ProcessAll | scripts/auto_cleanup_deps.py:548-584 | The whole loop gives every dependency of the queue exactly one verdict, in order |
| CleanupDeps.StateManager.MarkCompleted | scripts/auto_cleanup_deps.py:463-471 | The verdict is added to the list and the counters stay the counts of the list |
| CleanupDeps.StateManager.Summary | scripts/auto_cleanup_deps.py:586-595 | Removed and kept are the true counts, errors always zero, and removed, kept and failed add up to the total |
| CargoReplace.ScanSection | scripts/gen_mask_shim.py:188-197 | The scan gives the entries of the section and how many lines behind the header it takes |
| CargoReplace.UpdateRootCargoToml | scripts/gen_mask_shim.py:166-212 | The loop and the rewriting make the merge the theorems are about, with both errors for a section that is not there |
| CargoReplace.MergeKeepsTheRest | scripts/gen_mask_shim.py:166-212 | Everything up to the header and behind the section is untouched; in between stand the old and added entries, sorted, each once or as often as it occurs |
| CargoReplace.LostLinesAreComments | scripts/gen_override_shim.py:476-505 | The only lines lost from the section are comments and a blank line right under the header |
| CargoReplace.SectionEntriesExactly | scripts/gen_mask_shim.py:189-198 | The entries are exactly the trimmed lines, neither blank nor comments, up to the first line that opens a section or is blank and not the very first |
| CargoReplace.LocateExactly | scripts/gen_mask_shim.py:175-187 | Which of the two errors there is, from the lines alone; otherwise the first header counts |
| CargoReplace.SectionReadBack | scripts/gen_override_shim.py:476-505 | A section that was written is read back as it was written |
| CargoReplace.MergeAfterMerge | scripts/gen_override_shim.py:444-515 | A second merge, by either tool, meets the first one's entries and rewrites just those |
| CargoReplace.DeduplicatingMergeIsIdempotent | scripts/gen_mask_shim.py:166-212 | Repeating the deduplicating merge changes nothing |
| CargoReplace.KeepingMergeAddsAgain | scripts/gen_override_shim.py:444-515 | Repeating the other merge adds its entries once more each time |
| CargoReplace.VariantsAgreeExactly | scripts/gen_mask_shim.py:166-212 | Both tools write the same file if and only if no entry occurs twice among the old and the added ones; they fail alike |
| CargoReplace.WrittenEntriesArePure | scripts/gen_mask_shim.py:199-202 | For any crate and version the entries the tools add are ones the scan recognises and keeps as they are |
| MaskedDeps.GetAlreadyMasked | scripts/auto_cleanup_deps.py:122-154 | The loop reads the keys from the first header to the next other section |
| MaskedDeps.MergeAddsMasks | scripts/auto_cleanup_deps.py:122-154 | After a merge by either tool the dependencies read as masked are exactly those read before and the added ones, however the file goes on behind the section |
| MaskedDeps.WrittenEntryIsReadExactly | scripts/auto_cleanup_deps.py:147-152 | The entry written for a crate and version is read back as just these if and only if neither has a quotation mark |
| AnalysisCache.Cache.Get | scripts/backport.py:111-130 | The answer for a scope, or the scopeless one if that is safe; nothing when caching is off |
| AnalysisCache.Cache.Set | scripts/backport.py:132-145 | The file of the commit, and no other, holds the analysis under its scope |
| AnalysisCache.Cache.IsDeclined | scripts/backport.py:157-167 | Declined exactly when branch or version is among the declined targets |
| AnalysisCache.Cache.MarkDeclined | scripts/backport.py:169-184 | The targets are added to the commit's list, no other file changes |
| AnalysisCache.CacheAgreesWithLog | scripts/backport.py:98-145 | After any operations on any files, a scoped answer is the last analysis set for commit and scope, else the last scopeless one if its verdict spells BACKPORT |
| AnalysisCache.SafeExactly | scripts/backport.py:98-145 | Only a verdict that spells BACKPORT, in any case, is reused for a scope |
| AnalysisCache.ScopesDoNotInterfere | scripts/backport.py:132-145 | Operations on other commits or scopes do not change a scope's analysis |
| AnalysisCache.DeclinedAgreesWithLog | scripts/backport.py:147-184 | The declined targets are those found at first and all marked since, blank ones aside |
| AnalysisCache.DeclinedForGood | scripts/backport.py:147-184 | A target once marked stays declined, whatever is set or marked afterwards |
| CommentText.Normalize | src/common/scripts/gen_param_code.py:684-715 | Gathering lines into paragraphs and bullets keeps every character in order, white space aside |
| CommentText.WrapCommentText | src/common/scripts/gen_param_code.py:684-743 | Any text comes out as comment lines that show all its characters in order, white space aside, without an empty comment at the end |
| ConfExample.RenderParameterExampleBlock | src/common/scripts/gen_param_code.py:746-773 | For any parameter, comments that show the whole description, then the assignment, active or behind a comment mark |
| ConfExample.DomainOverrideExample | src/common/scripts/gen_param_code.py:776-792 | The example of a domain section sets exactly what escapes its comment marks, for any parameters |
| ConfExample.OfflineBreakglassExample | src/common/scripts/gen_param_code.py:795-822 | The breakglass example sets exactly what escapes its comment marks, for any parameters |
| ConfExample.SortByOrderIsStable | src/common/scripts/gen_param_code.py:842-843 | Parameters come out in their order, those of equal order as they came, none lost or added |
| ConfExample.Documented | src/common/scripts/gen_param_code.py:842-843 | Exactly the documented parameters of the section |
| ConfExample.DocumentedInOrder | src/common/scripts/gen_param_code.py:842-843 | They are taken in the order they came, as often as they occur |
| ConfExample.HintOffersEveryChoice | src/common/scripts/gen_param_code.py:663-667 | The hint of an enumeration offers every value between its marks |
| ConfExample.ExampleLines | src/common/scripts/gen_param_code.py:825-860 | The pieces set the global settings and what escapes the comment marks, and nothing else |
| ConfExample.GenerateConfExample | src/common/scripts/gen_param_code.py:825-861 | For all parameters, the active lines of the sample as text are exactly these settings, in order |
| ConfExample.OnlyRequiredSettingsExactly | src/common/scripts/gen_param_code.py:825-861 | They are the documented global parameters of the Debian table with the table's values, in parameter order, if and only if no commented-out assignment runs on in a line that sets something |
| ConfExample.SingleLinesEscapeNothing | src/common/scripts/gen_param_code.py:630-681 | Parameters with single-line names, values and choices never run on |
| ConfExample.DebianSets | src/common/scripts/gen_param_code.py:82-87 | What Debian requires are the documented global ones of the four named parameters, with the four named values |
| ConfExample.GenerateFromSingleLines | src/common/scripts/gen_param_code.py:825-861 | From parameters in single lines the sample sets exactly Debian's required settings, and outside Debian mode nothing |
| ConfExample.FurtherLinesAreSet | src/common/scripts/gen_param_code.py:746-773 | What the further lines of a commented-out default set, the sample sets |
| ConfExample.RunOnDefaultIsSet | src/common/scripts/gen_param_code.py:746-773 | A parameter with a default over two lines, with which the sample sets more than is required |
| ConfText.TrimmedTextSetsTheSame | src/common/scripts/gen_param_code.py:861 | Trimming any text and closing it with a line break changes no active line |
| ConfText.JoinShowsPieces | src/common/scripts/gen_param_code.py:861 | The joined text sets what its pieces set one after the other, however many lines they have |
| ConfText.CommentCoversTheFirstLine | src/common/scripts/gen_param_code.py:768-771 | Text behind a comment mark sets exactly what its lines after the first set by themselves |

## Left out

- The daemon, the identity provider clients, key storage and all cryptography: they decide by what lies outside this repository or on the network.
- Texts shown to the user, prompt wording, logging and translations.
- Sleeping, other than the pause before a poll.
- Aborting the security key's task when the phone wins, and dropping its runtime: only the results of the two paths are modelled.
- Connecting the client's socket and encoding requests; the clock is a parameter.
- Writes of PAM files that fail half way, and files that exist and cannot be read.
- The headings a dry run prints above each text.
- m4 quoting, and comments in a policy beyond `grants`; the parsing of audit logs, where every denial is taken to name a permission, as the pattern that reads them demands.
- `find_insertion_point` and `get_indent_at_position`: rules outside blocks go to arbitrary places, and the indentation is any brace-free text.
- The order of rules inside one new optional block.
- Listing and dry-run modes of the clean-up, a damaged state file, and the text added for cargo-vet.
- Line breaks and encoding of Cargo.toml, and a Cargo.toml that is missing: the merge is on lines.
- `_extract_example_value` and the cleaning of troff text: parameters carry their extracted example.
- The generators of Rust getters, of the man page and of the Nix options, which print one parameter after the other; the packaging templates; and the diagnosis of `semodule` errors, which looks up fixed messages and line numbers.
- AuthExchanges.ExchangesComeTo: for new PINs of fewer than 2^32 characters, as the policy check is exact only up to there; `NewPinsAreGood` holds for all.
- AuthClient.Client.AskTwice: stands for the two loops of the PIN and the password prompt, which differ only in what they accept.
- ClientSync.CallAndWait: the clock is taken to pass the timeout some time, without which the loop need not end.
- CargoReplace.DeduplicatingMergeIsIdempotent: for a merge of at least one entry, as the tools make it.
