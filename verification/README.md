# Verification of the libamvp cores

This project models the parts of libamvp and of its sample application that hold real algorithms,
and proves what they promise over every input, every server and every run.

| Files | What they model |
|---|---|
| `Bits.dfy`, `AesMctSpec.dfy`, `AesMct.dfy`, `AesResponse.dfy` | The AES Monte Carlo engine of `src/amvp_aes.c`: the bit macros, the static row tables updated in place, and the recurrence of the NIST AESAVS, section 6.4, that they are proved to compute |
| `Options.dfy`, `Retry.dfy`, `Server.dfy`, `Results.dfy`, `Session.dfy`, `Resumption.dfy` | The test session of `src/amvp.c` against an arbitrary server, with a history of everything fetched, submitted and validated |
| `OptionSpec.dfy`, `KetOpt.dfy`, `CommandLine.dfy` | The permuting option parser of `app/ketopt.h`, the loop in `app/app_cli.c` that drives it, and command lines written down option by option, which it reads back |
| `EcdsaSpec.dfy`, `EcdsaCalls.dfy`, `Ecdsa.dfy`, `EcdsaDuplicates.dfy` | The grouping of ECDSA curves with equal hash sets, the setters that fill those sets, and what a registration says in the terms of the calls |
| `Ciphers.dfy`, `RegistrationSpec.dfy`, `Registration.dfy`, `EcdsaBuilder.dfy` | The list of capabilities, the count of expected vector sets, and the registrations that are split in two |
| `SymCapSpec.dfy`, `SymCap.dfy`, `KeyedLists.dfy` | The capability setters whose rules reach across calls: lengths given as values or as a domain, the DSA attributes, the RSA key generation moduli |
| `Base64.dfy`, `Totp.dfy` | The Base64 decoder and the one-time password of `app/app_utils.c`, against RFC 4648, section 4, RFC 4226, section 5.3, and RFC 6238, section 4.2 |

Code that changes its state in place is modelled by classes and methods over arrays and fields.
Every such method is proved against a function or predicate of the old state, and the lemmas are
about those functions. Replies of the server, the crypto callback, the message authentication
code, the clock and the presence of files are parameters and may be anything.

## Where the code and its documentation part

- A session may be resumed on any context. One that still holds the URLs of an earlier call submits
  them all again, ahead of the unreceived ones (`Resumption.ResumeOnSameContext`), because the URL
  list is freed only with the context; every set is answered exactly once if and only if the
  context held no URL (`Resumption.ResumeOn`). In the same way the mark that a session has passed
  is never taken back: on a context that bears it the gate in front of a validation can be broken
  (`Resumption.GateFails`), on every other one it holds (`Session.Client.Resume`).
- The retry handler is documented never to wait longer than the maximum in sum. It can:
  `Retry.MaximumExceeded` has the input, `Retry.WithinMaximum` the exact condition for a wait, and
  `Retry.GrantsBounded` the bound that does hold, so that every polling loop ends.
- A failed vector set is looked up in the list of those already downloaded by comparing only the
  shorter length, so a URL that is a prefix of a known one counts as known
  (`Results.PrefixUrlsConfused`); an empty string is never found, so a failed set with an empty URL
  is downloaded again in every round (`Results.EmptyLookedAgain`).
- The mode of a failed set is kept for the sets after it as a pointer into a reply that has been
  freed by then (`src/amvp.c:3765-3789`). The model keeps its value; what a later set without a
  mode really reads is not defined.
- A curve that is enabled twice can lose the hash algorithms set for it
  (`EcdsaSpec.DuplicateCurveLosesHashes`). `EcdsaDuplicates.PreservedExactly` says exactly when.
- The expected number of vector sets can exceed the length of the registration
  (`RegistrationSpec.CountTooHigh`), by exactly the number of calls that
  `RegistrationSpec.Wasteful` describes.
- Component mode NO has the value 0, which the ECDSA setter takes for a missing argument, so a
  component mode can be set but never be set back to NO.
- The option parser returns `'?'` for an ambiguous long name without advancing, and ends the
  parse at a single-dash token of more than two characters without advancing either. The driver
  loop ends all the same (`KetOpt.Ingest`).

## Model

| member | source | states |
|---|---|---|
| Bits.TestAfterPut | src/amvp_aes.c:71-72 | Reading any bit of a byte after `sb` wrote one gives the written value there and the old one elsewhere |
| Bits.GetAfterSet | src/amvp_aes.c:71-72 | The same over a buffer, at every pair of bit positions |
| Bits.BitsOfByte | src/amvp_aes.c:71-72 | `gb` counts the bits of a byte from the most significant one: each stands for its weight, and together they are the byte |
| Bits.PackBitsUnique | src/amvp_aes.c:349-355 | A buffer whose bits were written one by one is the packing of those bits, and no other |
| AesMctSpec.FeedbackStream | src/amvp_aes.c:100-158 | In every mode, step j+1 reads unit j of the stream that starts with the IV's units and goes on with the outputs |
| AesMctSpec.PassesSplice | src/amvp_aes.c:337-358 | The first text and the IV of the next pass are the last units of this pass's feedback stream, in order, with no unit dropped or read twice |
| AesMctSpec.KeySliceIsSuffix | src/amvp_aes.c:337-375 | In the byte modes the key slice is the last key-length bits of all output of the pass run together |
| AesMctSpec.KeyAccumulates | src/amvp_aes.c:440-443 | After any number of passes the key is the first key exclusive-ored with every pass's slice |
| AesResponse.KeyRecovered | src/amvp_aes.c:440-443 | Exchanging with the same slices once more gives back the first key |
| AesMctSpec.RefusalIsFinal | src/amvp_aes.c:299-304 | A pass that the crypto module refuses ends every longer run at that pass |
| AesMctSpec.RunExtends | src/amvp_aes.c:296-315 | Later steps of a pass never rewrite the outputs of earlier ones |
| AesMct.MctEngine.CallHandler | src/amvp_aes.c:297-304 | The callback starts from key and IV at index 0 and from its own state otherwise; accepted, it leaves the next output of the recurrence |
| AesMct.MctEngine.FileTexts | src/amvp_aes.c:83-89 | Filing a step extends the outputs held in the rows by one, in every mode |
| AesMct.MctEngine.SaveKey | src/amvp_aes.c:90-92 | From step 0 of a pass on, row 0 of the key table holds the key of that pass, never an older one |
| AesMct.MctEngine.StageBlock | src/amvp_aes.c:100-126 | For ECB, CBC, OFB and CFB128 the buffers hold the input and the IV that the recurrence asks for next |
| AesMct.MctEngine.StageCfb8 | src/amvp_aes.c:127-141 | For CFB8 the byte that is read next is IV byte j, or output j-16 |
| AesMct.MctEngine.StageCfb1 | src/amvp_aes.c:142-158 | For CFB1 the bit that is read next is IV bit j, or output j-128, whatever the other bits of the row |
| AesMct.MctEngine.Iterate | src/amvp_aes.c:79-158 | One iteration takes the state after j steps to the state after j+1 steps |
| AesMct.MctEngine.SliceKey | src/amvp_aes.c:337-375 | The local buffer holds the key slice of the pass, for every mode and key length |
| AesMct.MctEngine.SliceKeyBits | src/amvp_aes.c:349-351 | For CFB1 it holds bit 0 of the last key-length outputs, packed in order |
| AesMct.MctEngine.CarryIvBytes | src/amvp_aes.c:343-347 | For CFB8 the next IV is the last 16 output bytes, in order |
| AesMct.MctEngine.CarryIvBits | src/amvp_aes.c:353-358 | For CFB1 the next IV, in the buffer and in its row, is the last 128 output bits, in order |
| AesMct.MctEngine.CarryFirstBit | src/amvp_aes.c:356-357 | For CFB1 the next first text is the output bit ahead of those 128 |
| AesMct.MctEngine.ExchangeKey | src/amvp_aes.c:440-443 | The next key is the key of this pass exclusive-ored with the slice |
| AesMct.MctEngine.FinishPass | src/amvp_aes.c:317-443 | What is done between two passes leaves exactly the key, IV and text of the recurrence's next pass |
| AesMct.MctEngine.RunSteps | src/amvp_aes.c:296-315 | The inner loop, for any count from 257 on, runs the recurrence to its end, or stops exactly when the crypto module refuses one of its steps |
| AesMct.MctEngine.RunPass | src/amvp_aes.c:278-446 | One pass appends its record to the response array exactly when no step was refused |
| AesMct.MctEngine.RunPasses | src/amvp_aes.c:278-447 | The response array grows by the records of exactly the passes ahead of the first refusal |
| AesMct.MctEngine.RunTest | src/amvp_aes.c:258-451 | The whole test gives the records of the AESAVS recurrence, whatever the static tables held before, and succeeds exactly when no step was refused |
| AesMct.RunTwice | src/amvp_aes.c:66-69 | Two runs of one test case over tables left in any state by others give the same response |
| AesResponse.OutputsAreTheRun | src/amvp_aes.c:296-315 | The outputs of a pass are the only texts that the crypto module, started with key and IV, gives for the stream of first text, IV units and these outputs themselves |
| AesResponse.IvUnitsAreIv | src/amvp_aes.c:127-158 | The units that the feedback starts with are the IV, byte by byte or bit by bit, in order |
| AesResponse.KeySliceBits | src/amvp_aes.c:349-351 | For CFB1 bit n of the key slice is the first bit of the n-th of the last key-length outputs |
| AesResponse.AcceptedSteps | src/amvp_aes.c:299-304 | A pass counts as accepted exactly when no text of its stream was refused |
| AesResponse.ResponseStarts | src/amvp_aes.c:288-294 | The first entry of a response has key, IV and input of the test case; ECB leaves out the IV |
| AesResponse.ResponseReplays | src/amvp_aes.c:278-446 | Every entry replays: run from its own key, IV and input, the crypto module ends with its output |
| AesResponse.ResponseChains | src/amvp_aes.c:317-443 | From the response alone: the next input is the output for ECB, the next IV is or ends in the output for the other modes, and the end of the next key is that of this key exclusive-ored with it |
| AesResponse.ResponseFeeds | src/amvp_aes.c:317-443 | Key, IV and input of the next entry follow from all outputs of the replayed one |
| Retry.RetryHandler | src/amvp.c:3127-3170 | A wait is granted exactly while budget is left; it counts more than the minimum and at most the maximum, and really sleeps no longer than it counts, for every requested period |
| Retry.PeriodHonoured | src/amvp.c:3134-3140 | A requested period that fits is used as it is, one that is too long for the budget is cut to what is left, and one that is too short gives the longest |
| Retry.WithinMaximum | src/amvp.c:3120-3126 | A wait keeps the total within the maximum if and only if a full period fits, or more than the minimum is left and was asked for |
| Retry.MaximumExceeded | src/amvp.c:3120-3140 | With the constants of the source, a total of 7499 seconds is reached |
| Retry.BudgetKept | src/amvp.c:3127-3170 | Every granted wait keeps the budget of its polling loop |
| Retry.GrantsBounded | src/amvp.c:3130-3132 | Against any server a loop is granted at most ceil(maximum / (minimum + 1)) waits |
| Results.Lookup | src/amvp_util.c:1252-1273 | A string is found exactly when a non-empty entry is a prefix of it or it of the entry |
| Results.PrefixUrlsConfused | src/amvp_util.c:1262-1270 | Of any two sets, with URLs of up to 256 characters, one of which is a prefix of the other, either counts as known once the other is |
| Results.FailureLog.Name | src/amvp.c:3728-3791 | A failed set is downloaded exactly when it is not known yet, and is known afterwards; one that is known leaves the result so far alone |
| Results.FailureLog.NameAlgorithm | src/amvp.c:3766-3784 | Algorithm and mode are appended together, unless both are known, so the two lists keep equal length |
| Results.FailureLog.LookedOnce | src/amvp.c:3656-3660 | No two of the downloaded sets are similar, and only the empty URL can be downloaded twice |
| Results.FreshApart | src/amvp.c:3728-3730 | Of the failed sets over any replies, one is downloaded only when it is similar to none downloaded before |
| Results.FreshCovers | src/amvp.c:3728-3730 | And one that is not downloaded is similar to one that was, unless its URL is empty |
| Results.EmptyLookedAgain | src/amvp_util.c:1262-1270 | A failed set with an empty URL is downloaded each time a scan reaches it |
| Results.EachFailureOnce | src/amvp.c:3656-3660 | All three together, for all the results fetched in a session |
| Results.Scan | src/amvp.c:3693-3794 | The sets looked up are exactly the reachable failed ones that are new; all entries of a round are counted only when every one has its final result and every failed one is known |
| Results.Round | src/amvp.c:3663-3804 | A round that is complete and reports the session as passed rests on a reply in which no set was expired, unreceived or incomplete |
| Results.FailureLog.Inquire | src/amvp.c:3742-3784 | The reply about a failed set is noted exactly: its algorithm, with its mode or else the last one, unless the reply lacks the algorithm |
| Results.Details | src/amvp.c:3830-3850 | On success the details of exactly the failed and erroneous sets were fetched, in order |
| Results.Collect | src/amvp.c:3641-3868 | Over all rounds exactly the new ones among the failed sets of all replies are downloaded; the session counts as passed only on a reply in which all sets finished, and whenever a settled reply of any round says so; it is given up only with the whole budget waited out, and within a bounded number of rounds |
| Server.StoredExactly | src/amvp.c:2658-2663 | The list holds a reply's URLs as they are if and only if each of them fits its node; one that does not leaves its node empty |
| Server.LeadingMeans | src/amvp.c:2980-2993 | What counts of a reply's URL array are all its strings up to the first element that is not one |
| Session.Client.FetchSet | src/amvp.c:3262-3292 | The set is fetched once more than waits were granted; each earlier reply asked for a wait, and the last one decides the result, or asked for one when the counted waits had used up the budget |
| Session.Client.SaveSet | src/amvp.c:3295-3330 | A request-only run writes the header with all URLs ahead of the first set, then the set |
| Session.Client.ProcessVsid | src/amvp.c:3249-3353 | Exactly one response is submitted when it succeeds, none when it fails or only downloads; then the set goes to the file |
| Session.Client.ProcessTests | src/amvp.c:3084-3116 | The responses submitted are those to the first URLs of the list, in order, and to all of them on success; a request-only run writes exactly one file of header, all sets in order, and end; a server that turns nothing down leads to success |
| Session.FileMeans | src/amvp.c:3302-3329 | That file begins with the list of all URLs and holds every set, each once and in order |
| Session.Client.LoadRegistered | src/amvp.c:2980-2993 | The URL list takes the strings of the reply up to the first element that is not one |
| Session.Client.LoadUnreceived | src/amvp.c:1609-1658 | The status loop succeeds exactly on a reply without gaps and without expired sets; behind what the list held it adds the unreceived ones up to the first entry that ends it, in order |
| Session.ToSubmitSplit | src/amvp.c:1609-1658 | What a resumption takes from a reply is what it takes from any front of it and from the rest, in order |
| Session.ToSubmitOne | src/amvp.c:1631-1656 | Of a single entry it takes the URL when it is unreceived, or always when it only downloads, and an expired one stops it |
| Session.Client.CheckTestResults | src/amvp.c:3176-3185 | The session is marked as passed only by a reply in which every set finished, and by every settled reply that says so |
| Session.Client.ValidateTestSession | src/amvp.c:3870-3906 | A validation is sent exactly when the session has passed; otherwise success is reported and nothing is sent |
| Session.Client.CheckAndValidate | src/amvp.c:4388-4411 | After all responses, a validation is sent whenever it was asked for and a settled reply reported a pass; and only when asked for and justified by what came before, unless the context counted as passed already |
| Session.Client.Register | src/amvp.c:4265-4362 | Exactly a login and a registration are sent, each step can end the run as the source has it, and the URLs of the reply go behind those that the context held |
| Session.Client.Run | src/amvp.c:4258-4419 | Over every run on any context, against any server: the answered URLs are a front of the list in order; a validation follows only all of them and, on a context not marked as passed, only a passed result, and it does follow a settled passed one; a request-only run neither submits nor validates, and writes its file; and where nothing stands in the way the run succeeds |
| Session.Client.QueryStatus | src/amvp.c:1549-1658 | Up to the URL list exactly a login and a status query are sent, each step can end the resumption as the source has it, and the unreceived sets of the reply go behind what the context held |
| Session.Client.Resume | src/amvp.c:1535-1702 | On any context a resumption submits a front of what the context held followed by the unreceived sets, in order and all of them on success; a settled pass reported behind the status query is followed by a validation when asked for; a validation is justified unless the context counted as passed, and then every success sends one |
| Session.ValidationJustified | src/amvp.c:3877-3891 | A validation sent behind all submissions and a passed result is the only one and has both ahead of it |
| Session.EffectFromEarlier | src/amvp.c:4342-4377 | What a session may do is unchanged by the requests ahead of it |
| Resumption.HonestRemaining | src/amvp.c:1609-1658 | From an honest report on k received sets, the status loop takes exactly the URLs from k on |
| Resumption.HonestResumption | src/amvp.c:1609-1668 | The responses so far and those of the resumption together are a front of the URL list, and the whole list when it finishes |
| Resumption.ResumeOn | src/amvp.c:1535-1702 | When a resumption on any context succeeds against an honest server, every set has been answered exactly once if and only if the context held no URL before the call |
| Resumption.ResumeOnSameContext | src/amvp.c:1609-1668 | A run that stopped after k responses, resumed on its own context, answers the whole list a second time from the start, and then the sets from k on |
| Resumption.GateFails | src/amvp.c:3877-3891 | On every context marked as passed, against a server that never reports a pass, a resumption succeeds and sends a validation |
| Resumption.ResumeOnce | src/amvp.c:1535-1702 | A resumption on a fresh context, against an honest server, keeps every set answered at most once and in order, and on success all are |
| Resumption.RunAndResume | src/amvp.c:1535-1702 | One run and any number of resumptions, each on a fresh context and failing anywhere, answer every set exactly once and in order |
| OptionSpec.ResolveMeaning | app/ketopt.h:91-103 | A name resolves to an entry if and only if that is the unique exact match, or the unique prefix match without an exact one; it is ambiguous if and only if several compete |
| OptionSpec.FullNameResolves | app/ketopt.h:94-103 | In a table of distinct names each full name, up to 128 characters, resolves to its own entry, however many others it is a prefix of |
| OptionSpec.HeadProgress | app/ketopt.h:102-137 | A non-negative return without progress is `'?'` for a long name that is ambiguous, and nothing else |
| OptionSpec.NextCallSplit | app/ketopt.h:74-82 | A call passes over all non-options in front and then treats the first option as if it stood alone |
| OptionSpec.ParseByCalls | app/ketopt.h:64-138 | Reading the whole line at once equals one call of the parser followed by reading what it left |
| OptionSpec.ParsePartitions | app/ketopt.h:130-135 | Reading a line is a stable partition: options with their arguments and skipped non-options, each in original order, with the unread rest in place |
| OptionSpec.InterleavedMultiset | app/ketopt.h:130-135 | No token is lost or duplicated by the partition |
| OptionSpec.AcceptedInPlace | app/app_cli.c:632-639 | A line that the driver accepts consists of options alone, read where they stood |
| KetOpt.ResolveScan | app/ketopt.h:91-103 | The scan over the table computes that resolution |
| KetOpt.ScanName | app/ketopt.h:93 | The name of a long option ends at the first equals sign, or with the token |
| KetOpt.Permute | app/ketopt.h:35-42 | One argument is rotated over n others, which keep their order, and all the rest stays |
| KetOpt.MoveTokens | app/ketopt.h:130-135 | The permuting loop moves an option and its argument ahead of the skipped non-options, both in order |
| KetOpt.KetOpt.SkipNonOptions | app/ketopt.h:74-77 | Exactly the non-options in front are skipped |
| KetOpt.KetOpt.ReadLong | app/ketopt.h:89-112 | A long option yields value, argument and index as specified; an ambiguous one leaves the position alone |
| KetOpt.KetOpt.ReadShort | app/ketopt.h:113-129 | A short option yields itself, its argument, or the code for a missing or unknown one |
| KetOpt.KetOpt.Commit | app/ketopt.h:130-135 | The arguments are the program name, all consumed options, all skipped non-options and the untouched rest, in original order |
| KetOpt.KetOpt.ReadOption | app/ketopt.h:83-137 | At an option the call does what the specification of the remaining tokens says, and sets `ind` behind the consumed options unless a name was ambiguous |
| KetOpt.KetOpt.Next | app/ketopt.h:64-138 | Every call keeps that arrangement of the arguments and is the specified function of the tokens it has not read yet |
| KetOpt.Ingest | app/app_cli.c:329-639 | The driver sees exactly the options of the batch reading, leaves the arguments as its partition, refuses every leftover, and ends within argc calls |
| CommandLine.LongWithValue | app/ketopt.h:93-106 | `--name=value` yields the option with exactly the value behind the equals sign |
| CommandLine.LongBare | app/ketopt.h:104-110 | `--name` stands alone, takes the next argument, or lacks it, as the table says |
| CommandLine.LongRefused | app/ketopt.h:89-103 | An unknown name is consumed, an ambiguous one is not, and both give `'?'` |
| CommandLine.EndOfOptions | app/ketopt.h:83-88 | `--` ends the options and is consumed; a single dash with more letters is not |
| CommandLine.Short | app/ketopt.h:113-129 | The letters v, h and a stand alone, s, u, r and p take or lack a value, and all others are unknown |
| CommandLine.LineReadBack | app/ketopt.h:64-138 | A line written option by option, with plain words anywhere, is read back as exactly these, each kind in its order, whatever follows |
| CommandLine.WholeLine | app/app_cli.c:329-639 | The driver is ready for a line of options alone and refuses one with plain words |
| CommandLine.LineWithEnd | app/ketopt.h:84-88 | Behind `--` nothing is read, and whatever stands there is refused |
| CommandLine.LineRefused | app/app_cli.c:616-619 | An unknown or ambiguous name ends the line as a usage error, behind the options ahead of it |
| CommandLine.LineLacking | app/app_cli.c:621-624 | So does an option at the end that lacks its value |
| CommandLine.LineStopped | app/app_cli.c:332-343 | An option whose handler returns is the last that the driver sees |
| CommandLine.ReadsBack | app/app_cli.c:329-639 | The driver run on a written line sees its options and values, and leaves the options ahead of the plain words |
| EcdsaSpec.MergeIdempotent | src/amvp_build_register.c:1364-1372 | Merging the universal hash algorithms a second time changes nothing, so a second registration groups the same lists |
| EcdsaSpec.GroupingCovers | src/amvp_build_register.c:1445-1517 | For every list, duplicates included, each curve is emitted exactly once, no two objects share a hash set, and none is empty |
| EcdsaSpec.GroupingPreservesMeaning | src/amvp_build_register.c:1440-1517 | Expanding the objects gives exactly the enabled pairs of curve and hash, when the entries of a curve agree |
| EcdsaSpec.GroupsAreClasses | src/amvp_build_register.c:1440-1444 | Two curves share an object if and only if their hash sets are equal |
| EcdsaSpec.GroupsInFirstOrder | src/amvp_build_register.c:1449-1517 | The objects come in the order in which their hash sets first occur |
| EcdsaSpec.DuplicateCurveLosesHashes | src/amvp_build_register.c:1493-1512 | A curve enabled twice is registered with the flags of its second entry alone |
| Ecdsa.EcdsaCap.EnableCurve | src/amvp_capabilities.c:4911-4933 | A curve in range is appended without hash algorithms, even when it is on the list already |
| Ecdsa.EcdsaCap.SetHashAlg | src/amvp_capabilities.c:4953-4964 | Exactly a single known hash flag is added to the universal ones |
| Ecdsa.EcdsaCap.SetCurveHashAlg | src/amvp_capabilities.c:4990-5035 | The first entry of the curve gains the hash, and every other entry stays |
| Ecdsa.EcdsaCap.MergeUniversal | src/amvp_build_register.c:1364-1372 | Every curve afterwards has its own hash algorithms and the universal ones |
| Ecdsa.EcdsaCap.CollectGroup | src/amvp_build_register.c:1470-1512 | The inner loop collects exactly the untracked curves with equal flags, and tracks exactly those |
| Ecdsa.EcdsaCap.BuildGroups | src/amvp_build_register.c:1363-1518 | The emitted groups cover every curve once, no two share a hash set, and they say exactly what the calls asked for if and only if no curve is swallowed; it fails exactly on an empty list or a curve without a name, each with its own code |
| Ecdsa.EcdsaCap.BuildGroupsTwice | src/amvp_build_register.c:1363-1518 | A second registration gives the same result and the same groups, although the first one changed the curves |
| EcdsaCalls.AlwaysPlain | src/amvp_capabilities.c:5023-5031 | After any calls only the first entry of a curve holds hash algorithms beyond the universal ones |
| EcdsaCalls.MergeMeans | src/amvp_capabilities.c:4990-5035 | After any calls, the merge leaves a hash with the first entry of a curve exactly when it was set for that curve once it was enabled, or for all curves |
| EcdsaCalls.SingleBits | src/amvp_capabilities.c:4958-4961 | The test for a single flag is passed by just the powers of two in range |
| EcdsaDuplicates.MergeReaches | src/amvp_build_register.c:1364-1372 | In every state that the setters reach, later entries of a curve hold the universal flags after the merge |
| EcdsaDuplicates.PreservedExactly | src/amvp_build_register.c:1440-1517 | What the calls set is registered exactly if and only if no curve enabled again comes behind the first curve with only the universal flags while none ahead shares its hash set |
| EcdsaDuplicates.DistinctNotLossy | src/amvp_build_register.c:1494-1499 | With each curve enabled once nothing is lost |
| EcdsaDuplicates.RegistrationMeans | src/amvp_build_register.c:1363-1518 | After any calls, with other registrations among them, exactly those pairs are registered whose curve was enabled and whose hash was set for it after that or for all curves, if and only if no curve is swallowed |
| EcdsaDuplicates.EnabledOnceSuffices | src/amvp_build_register.c:1494-1499 | When no call enables a curve again, the registration says exactly that |
| RegistrationSpec.CompileMeaning | src/amvp_build_register.c:4565-4839 | A registration holds the object of every piece in order, or fails with the code of the first piece that fails |
| RegistrationSpec.CompileFails | src/amvp_build_register.c:4824-4829 | A failure is not changed by whatever follows |
| RegistrationSpec.PiecesCounted | src/amvp_build_register.c:4578-4741 | There is one object per capability and one more per split |
| RegistrationSpec.SplitIff | src/amvp_build_register.c:4578-4741 | Registered twice are just the four ciphers with either IV source and the two signature ciphers with both component modes |
| RegistrationSpec.PiecesStand | src/amvp_build_register.c:4578-4741 | Behind the pieces of those ahead of it, each capability has an internal and an external piece, one without and one with the component test, or itself |
| RegistrationSpec.SettingsAreLast | src/amvp_capabilities.c:2564-2575 | A cipher is enabled exactly when a call enabled it, and has the settings of the last calls that took effect |
| RegistrationSpec.AcceptedByHistory | src/amvp_capabilities.c:4911-4981 | Which calls take effect, told by the calls before them |
| RegistrationSpec.EnabledInOrder | src/amvp_capabilities.c:628-637 | The capabilities stand in the order in which their ciphers were first enabled |
| RegistrationSpec.CountIsLengthPlusWaste | src/amvp_capabilities.c:2564-2571 | After every history of calls the count exceeds the length of the registration by the number of wasteful calls |
| RegistrationSpec.CountExactly | src/amvp_capabilities.c:4965-4972 | The count is the length if and only if no call announced a split it did not make or took one back |
| RegistrationSpec.CountTooHigh | src/amvp_capabilities.c:2564-2571 | A cipher that never splits is counted twice |
| Registration.Entry.BuildInto | src/amvp_build_register.c:4578-4741 | A capability is registered once or twice, and is afterwards as it was, on success and on every failure |
| Registration.Context.EnableCap | src/amvp_capabilities.c:154-641 | A cipher not yet on the list is appended and counted; one that is there is refused |
| Registration.Context.SetIvgenSrc | src/amvp_capabilities.c:2564-2575 | The source of the IV is set and counted exactly on an enabled symmetric cipher and for a value in range |
| Registration.Context.SetComponentTest | src/amvp_capabilities.c:4911-4981 | The component mode is set and counted exactly on an enabled signature cipher and for a value that is not 0 |
| Registration.Context.BuildRegistration | src/amvp_build_register.c:4542-4845 | A registration holds, at its place, the object of every capability, or one built with internal and one with external IVs, or one without and one with the component test; it leaves every capability as it was, and fails with the code of a piece that fails |
| Registration.Context.BuildTwice | src/amvp_build_register.c:4565-4839 | With a builder that may change its data, as long as that makes no difference to what it builds, a second registration equals the first, and its length is the count exactly when no call was wasteful |
| EcdsaBuilder.BuilderSettles | src/amvp_build_register.c:1363-1396 | The builder of ECDSA signature capabilities, which changes their curves, is such a builder |
| EcdsaBuilder.SignatureMeans | src/amvp_build_register.c:1363-1518 | Its object for a signature capability, behind any calls on it, holds such groups, and its failures are those of the grouping |
| EcdsaBuilder.OthersUntouched | src/amvp_build_register.c:4700-4741 | Building one signature capability leaves the curves of the other alone, and building any other capability both |
| Registration.FailureIsFinal | src/amvp_build_register.c:4824-4829 | A capability that fails ends the registration of every longer list |
| SymCapSpec.SetMeansSet | src/amvp_util.c:1299-1301 | For a stored domain the test on the 32-bit sum tells exactly whether it is set |
| SymCapSpec.UnboundedDomainWraps | src/amvp_util.c:1299-1301 | For a well-formed domain without the upper bounds of the validation it would not |
| SymCapSpec.StepKeeps | src/amvp_capabilities.c:2291-2665 | Every call keeps the invariant, and the form first used for a length |
| SymCapSpec.ReachableInv | src/amvp_capabilities.c:2150-2153 | In every reachable state no length has both a list and a domain, a data-unit domain implies the flag is off, and every stored domain is sound |
| SymCapSpec.FirstFormWins | src/amvp_capabilities.c:2150-2153 | The form first used for a length stays its only one, whatever is called afterwards |
| SymCapSpec.StateOfCalls | src/amvp_capabilities.c:2291-2665 | A capability holds exactly the values, the last domains and the last flag of the calls that took effect |
| SymCapSpec.AcceptedByHistory | src/amvp_capabilities.c:2291-2665 | A call takes effect if and only if it is valid and no earlier one that did gave the other form for that length |
| SymCap.SymCap.SetDomain | src/amvp_capabilities.c:2291-2361 | A domain is stored exactly when it is valid for the cipher and no list was given, and nothing else changes |
| SymCap.SymCap.SetParm | src/amvp_capabilities.c:2601-2679 | A value is appended, or the flag set, exactly when it is valid and no domain was given, and nothing else changes |
| SymCap.SymCap.NeverBoth | src/amvp_capabilities.c:2291-2665 | The fields of the capability satisfy the invariant after any calls |
| KeyedLists.ReplayIsMap | src/amvp_capabilities.c:759-797 | For any kind of value, after any calls each modulus holds all that was given to it and nothing else, in the order of the calls |
| KeyedLists.ModuliInOrder | src/amvp_capabilities.c:759-797 | After any calls the moduli are distinct and in the order of their first use |
| KeyedLists.MasksAreMap | src/amvp_capabilities.c:778-782 | A DSA mask holds a hash flag if and only if some call gave it to that modulus |
| KeyedLists.OrderIrrelevant | src/amvp_capabilities.c:779-782 | Any rearrangement of the calls leaves every mask the same |
| KeyedLists.DsaMode.SetModulo | src/amvp_capabilities.c:759-797 | The walk finds the modulus or appends it, and adds the flags there alone |
| KeyedLists.BuildHashAlgs | src/amvp_build_register.c:2271-2308 | The names are exactly those of the SHA-1 and SHA-2 members of the mask, each once; it fails exactly when there is none |
| KeyedLists.NamesAsWritten | src/amvp_build_register.c:2281-2301 | Each of the seven names is written exactly for its flag |
| KeyedLists.PrimesAreMap | src/amvp_capabilities.c:4386-4439 | After any calls each modulus has exactly the hash and test names given to it, in order |
| KeyedLists.RsaKeygen.FindOrAppend | src/amvp_capabilities.c:4386-4416 | The search ends, at the only node of the modulus, which it appends when there is none |
| KeyedLists.RsaKeygen.SetPrimes | src/amvp_capabilities.c:4386-4439 | A name is added to the node of its modulus; a refused value still leaves a node behind |
| Base64.Decode | app/app_utils.c:61-103 | The result is the decoding of the characters ahead of the first pad, or nothing after a foreign one, whatever the buffer held, and no write goes past the room for the string |
| Base64.DecodeOne | app/app_utils.c:76-99 | Each character extends the octets written, and starts the next one unless a pad follows |
| Base64.NoCarry | app/app_utils.c:80-96 | Adding the bits of a character to an open octet never carries |
| Base64.SkipMeetsPad | app/app_utils.c:83-92 | The next octet is left alone only when the next character is a pad |
| Base64.OctetRoundTrip | app/app_utils.c:76-96 | Each octet comes back from the six-bit values it was spread over |
| Base64.RoundTrip | app/app_utils.c:20-103 | Decoding the RFC 4648 encoding of any octets gives those octets |
| Base64.DecodeEncoded | app/app_utils.c:20-103 | The decoder, run on an encoding, returns the length and writes exactly the octets, within a quarter of the length times three |
| Base64.AlphabetOfRfc | app/app_utils.c:28-59 | The characters are those of Table 1 of the RFC, in its order, and the decoder knows no others |
| Base64.GroupOf24 | app/app_utils.c:76-96 | Four characters and three octets are the same 24-bit number, as the RFC has it |
| Base64.EncodedLength | app/app_utils.c:20-23 | An encoding has four characters per group, with two, one or no pads at its end |
| Base64.PadEnds | app/app_utils.c:69-70 | Whatever stands behind the first pad does not matter |
| Base64.ExamplesOfRfc | app/app_utils.c:61-103 | Examples of section 10 of the RFC |
| Totp.FillCounter | app/app_utils.c:174-183 | The eight counter octets, most significant first, are the time divided by 30, modulo 2^64 |
| Totp.CounterValue | app/app_utils.c:174-175 | From 1970 on nothing is lost by that modulus |
| Totp.Truncate | app/app_utils.c:205-210 | Truncation reads four octets of the buffer, inside the digest when that has at least 19, and gives their value without the top bit |
| Totp.Token | app/app_utils.c:212-216 | The token is exactly eight digits, whose value is the truncation modulo 10^8 |
| Totp.DecimalReads | app/app_utils.c:215 | The digits are read with the most significant first |
| Totp.FourOctets | app/app_utils.c:207-210 | Four octets are the number with the first one on top, and masking that octet drops the top bit |
| Totp.ExampleOfRfc | app/app_utils.c:205-216 | The example of section 5.4 of RFC 4226 |
| Totp.CounterUnique | app/app_utils.c:174-183 | Octets of one length with the same value are the same, so a time has one counter |
| Totp.Totp | app/app_utils.c:150-219 | The password is that of the RFC for the decoded seed and the time; the failures are exactly an undecodable seed and a failing code |
| Totp.PasswordOfKey | app/app_utils.c:185-216 | A key that fits the seed length yields, from its encoding, the password for the key itself |

## Left out

- Transport, TLS, JSON text, files, logging, memory release, failing allocations: replies are parsed values, saving a set is an event.
- The ciphers, hashes and message authentication codes: arbitrary functions.
- The two directions of the AES engine: the source writes each step twice, the model names the input and output side by the direction.
- The AES response's hexadecimal text and the JSON object of a test case: a record of octets stands for it.
- The get, post, put, delete, resource and certificate request modes of a run, and the put that may follow a finished session.
- Running without a login, which an environment variable allows: the model always logs in.
- The session info file and the parsing of its contents: a parameter says whether it can be read.
- The polling loop over test evidence sets in `amvp_process_teid`: it has the shape of the modelled one.
- The shortening to 128 characters of a failed set's URL when it is requested: the event holds the whole URL.
- The names printed for failed algorithms and failed test cases.
- `ketopt` with an option string other than the driver's, without permutation, or without a table of long options; its `opt` field; an empty argument vector.
- What the driver's option handlers do: a parameter says which of them end the loop.
- The names of curves and hash algorithms in an ECDSA object: an arbitrary predicate says which curves have a name, and every single hash flag is taken to have one.
- The builders of single capabilities but ECDSA signatures: an arbitrary function that may fail, and that may change data of its own as long as this makes no difference later.
- The parameters of a symmetric cipher other than lengths, the data-unit flag and the IV source; the table of single valid lengths is an arbitrary predicate.
- The lookup of the capability and of the key generation mode in front of the setters in `SymCap` and `KeyedLists`, which fails for a cipher that is not enabled.
- Linked lists are sequences: pointers between nodes are not modelled.
- Key agreement and key transport setters, whose walks are not lookups by key, and the parsing of protocol errors.
- Totp.Totp: takes the shift of a negative time to keep the sign, which C leaves to the compiler, and the digest to fit its buffer of 512 octets.
- Retry.RetryHandler: the limits are symbolic, assumed to satisfy minimum < maximum <= maximum wait, and small enough for 32 bits.
