# NeuroOps backend: model and proofs

A Dafny model of the parts of the backend where strings, state and clocks
decide correctness, with proofs of what those parts are for. Text is ASCII.
Where Go walks a map, the model picks the next entry arbitrarily, so a contract
holds for every iteration order. Library functions whose inside is not modelled
are parameters: `net.ParseIP` and `net.SplitHostPort` (`Tokens.Net`, with the
laws in `Lawful`), HMAC and SHA-256 (`Passwords.Crypto`, `Jwt.Codec`,
`AgentAuth.Setup`), JSON (`Jwt.Codec`) and time parsing (`CustomMapper`).

| file | what it models |
|---|---|
| `Text.dfy`, `Regex.dfy` | Go's `strings` and `strconv` operations and the regular expressions used |
| `PodSuffix.dfy` | the two implementations of pod-suffix stripping |
| `Tokens.dfy`, `Values.dfy`, `Fingerprint.dfy` | the alert fingerprint, from one word to the bytes handed to SHA-256 |
| `Shapes.dfy`, `Identity.dfy` | the same read from outside: which texts the patterns match, which labels count, how the bytes are laid out |
| `RateLimiter.dfy` | the webhook token buckets and their eviction |
| `AgentAuth.dfy`, `Replay.dfy`, `AgentRuns.dfy` | the agent signature check, replay protection as a timed protocol, and whole runs of the authenticator |
| `Template.dfy`, `Substitution.dfy`, `MapOrder.dfy` | title templates, when their replacement loops are one substitution, and why no less will do |
| `CustomMapper.dfy`, `MappedEvents.dfy` | the custom mapper, and what each field and title token of its events is |
| `Passwords.dfy`, `Jwt.dfy` | PBKDF2, stored hashes and their migration; JWTs over base64url |
| `EventIds.dfy`, `EventStore.dfy`, `Ingest.dfy` | event IDs, the store that keeps each row for its tenant, and the three webhook loops over it |
| `Delivery.dfy`, `IngestRuns.dfy` | what each alert of a webhook leaves and tells correlation, and what the store holds after any run of webhooks |
| `TenantCache.dfy` | the tenant lifecycle cache, call by call and interleaved |
| `HealthScores.dfy` | the in-place score sort and the dashboard summary |

Where the code falls short of its comments or of a natural reading, the code is
kept and the exact condition is proved:

- A nonce lives ten minutes and the timestamp window is five minutes either
  way. On a clock of whole seconds and without delay that is exactly enough; on
  the nanosecond clock the cache reads it is short by the rest of a second plus
  the time between window check and nonce use (`Replay.ReplaySafeExactlyWhen`,
  `Replay.TenMinutesIsTheBoundary`, for the authenticator itself
  `AgentRuns.VerifiesOnceExactlyWhen`, `AgentRuns.CodeVerifiesTwice`).
- `absInt` of the most negative 64-bit number is negative, so one timestamp per
  second outside the window passes the check (`AgentAuth.WindowMeans`).
- A rate limit of zero or less still allows the first call of a key, and again
  after an eviction; with a window over ten minutes eviction refills a bucket
  early, twice the quota then fits into one window
  (`RateLimiter.BoundedExactlyWhen`, `RateLimiter.EvictionIsInvisibleExactlyWhen`,
  `RateLimiter.FirstCallIsAllowed`).
- The two pod strippers disagree on CronJob pods, on five-letter words that only
  look like suffixes and on ReplicaSet names
  (`PodSuffix.StrippersAgreeExactlyWhen`).
- The fast path of `normalizeValue` keeps odd spacing that the word-by-word path
  would collapse (`Values.FastPathIsExactWhen`), and one pass over a word is not
  enough when what is left of a name without its generated suffix is itself a
  date, address, number, ID or suffixed name
  (`Tokens.NotIdempotent`, `Tokens.SecondPassExactlyWhen`).
- Titles and field maps can depend on map order. For values without '$' the two
  replacement loops are the simultaneous substitution, in every order, exactly
  on templates that are decided: at most one token is found at each '$', and
  none can be completed by a neighbour's value
  (`MapOrder.AlwaysOnePassExactlyWhen`; that all orders merely agree:
  `MapOrder.BothOrderFreeExactlyWhen`). One mapping and one payload with two
  titles: `CustomMapper.TitleDependsOnOrder`, and with a '$' in a value
  `CustomMapper.DollarInValueMatters`. For field maps the condition is
  `CustomMapper.OneResultExactlyWhen`.
- Event IDs made from the clock can coincide, for Alertmanager across tenants and
  for Grafana across webhooks, tests included although each press is meant to get
  an ID of its own; within one Grafana webhook they never do
  (`IngestRuns.WebhooksCanCollide`, `IngestRuns.OneGrafanaWebhookIsSeparate`).
- A tenant's name, with a dash behind it, can begin another's ("acme" and
  "acme-eu"); an ID of the one is then an ID of the other for some fingerprint
  with a dash in it. For all keys: `EventIds.SameIDExactlyWhen`; by the names
  alone: `EventIds.TenantsApartExactlyWhen`; for a run:
  `IngestRuns.SeparateExactlyWhen`.
- When two messages of one tenant share an ID the row shows only the later one.
  When another tenant had the ID first the store leaves its row alone and
  reports no error: the second tenant's alert is counted and correlated but has
  no row (`IngestRuns.NoRowExactlyWhen`, `IngestRuns.SecondTenantHasNoRow`).
- A cache fill that overlaps a change of tenant state puts the old state back
  after the invalidation (`TenantCache.LateFillRestoresOldState`); every later
  check is fresh exactly when neither the cache nor a call under way still holds
  an old state that can be gone by (`TenantCache.FreshFromExactlyWhen`).

## Model

| member | source | states |
|---|---|---|
| Fingerprint.CanonicalForm | backend/internal/fingerprint/fingerprint.go:39-72 | two alerts are written as the same bytes if and only if their normalised names and their normalised label maps are equal |
| Fingerprint.CollectLabels | backend/internal/fingerprint/fingerprint.go:43-65 | in every iteration order the loop ends with the normalised label map, each key listed once; which keys and values these are: Identity.NormalLabelsAre |
| Fingerprint.CanonicalBytes | backend/internal/fingerprint/fingerprint.go:40-70 | the buffer built step by step is the canonical writing of the alert's normal form, whatever the map order |
| Fingerprint.Fingerprint | backend/internal/fingerprint/fingerprint.go:39-72 | the result is the hash of the canonical bytes and of nothing else |
| Fingerprint.FingerprintIdentifies | backend/internal/fingerprint/fingerprint.go:22-38 | with a hash that does not collide on the two buffers, equal fingerprints mean equal normal forms |
| Fingerprint.EncodeIsInjective | backend/internal/fingerprint/fingerprint.go:74-79 | the length-prefixed encoding of a list of fields determines the list |
| Fingerprint.FieldIsPrefixFree | backend/internal/fingerprint/fingerprint.go:74-79 | a field ends where its length says, so no value can pass for the start of another field |
| Fingerprint.AppendField | backend/internal/fingerprint/fingerprint.go:75-79 | appends exactly one encoded field |
| Fingerprint.AscendingListingIsUnique | backend/internal/fingerprint/fingerprint.go:66 | a key set has one ascending listing, so sorting removes the map order |
| Fingerprint.CountedLabel | backend/internal/fingerprint/fingerprint.go:53-64 | one more label changes the least value of its own key only |
| Fingerprint.DroppedLabelIsMissing | backend/internal/fingerprint/fingerprint.go:45-52 | a label that contributes nothing counts as a missing one; which these are: Identity.LabelSaysNothing and Identity.LabelCounts |
| Identity.NormalLabelsAre | backend/internal/fingerprint/fingerprint.go:43-65 | a key is in the normalised label map if and only if it is none of the 21 volatile names, does not end in "url" and some label spelled so has something left of its value; the least such value stands for it |
| Identity.LabelSaysNothing | backend/internal/fingerprint/fingerprint.go:83-101 | a label whose key, without outer blanks and in lower case, is one of the 21 names or ends in "url" may have any value or be missing: the bytes are the same |
| Identity.LabelCounts | backend/internal/fingerprint/fingerprint.go:43-65 | for any other key two values give the same bytes if and only if their normal values are equal, and a label is the same as none if and only if nothing is left of its value |
| Identity.SpellingsAreOne | backend/internal/fingerprint/fingerprint.go:46 | spellings of one key that differ in case or outer blanks count as one key |
| Identity.BytesAre | backend/internal/fingerprint/fingerprint.go:40-79 | the bytes are the name and then key, value, key, value in order, each behind its length and a colon |
| Text.LessMeans | backend/internal/fingerprint/fingerprint.go:66 | keys and values are compared at the first character that differs, a text that ends first being less |
| Fingerprint.PodsOfOneWorkload | backend/internal/fingerprint/fingerprint.go:22-38 | replacing the pod or ReplicaSet an alert names by another of the same workload keeps the canonical bytes |
| Fingerprint.SameProblemSameBytes | backend/internal/fingerprint/fingerprint.go:1-3 | alerts whose name and labels differ, word by word and path part by path part, only in pod, address, port, time, UUID, long number or hex ID have the same canonical bytes |
| Values.ValuesAlikeSameValue | backend/internal/fingerprint/fingerprint.go:115-145 | two values made of such words, with the same punctuation around them, have one normal form |
| Tokens.InterchangeableSameToken | backend/internal/fingerprint/fingerprint.go:149-175 | two times, addresses, UUIDs, long numbers or hex IDs, two ports of one host and two pods or ReplicaSets of one workload become the same word |
| Values.RewriteValue | backend/internal/fingerprint/fingerprint.go:115-132 | the in-place rewriting of words computes the normal form of a value |
| Values.RewriteParts | backend/internal/fingerprint/fingerprint.go:121-126 | each part of a path is rewritten in place and the parts are joined again |
| Values.MarksAre | backend/internal/fingerprint/fingerprint.go:116-119 | a value is read word by word if it has a digit, dash, colon or dot, and is otherwise left as it is |
| Values.PathsAre | backend/internal/fingerprint/fingerprint.go:121 | a word with a slash is read part by part unless "://" stands in it |
| Values.CoreIsBare | backend/internal/fingerprint/fingerprint.go:137 | the core of a word begins and ends outside the six punctuation characters |
| Text.FieldsAreTheWords | backend/internal/fingerprint/fingerprint.go:119 | a value is its words with non-empty gaps of white space between them, of whatever kind and length: no word is lost or cut |
| Values.WordIsRewrittenAtItsCore | backend/internal/fingerprint/fingerprint.go:136-145 | the replacement lands on the trimmed core: the punctuation stays and only the core changes |
| Values.FastPathRefinesSlowPath | backend/internal/fingerprint/fingerprint.go:115-132 | on values with nothing to strip the word-by-word path only joins the words by single blanks |
| Values.FastPathIsExactWhen | backend/internal/fingerprint/fingerprint.go:116-118 | the fast path equals the word-by-word path if and only if the value is singly spaced |
| Values.PodValue | backend/internal/fingerprint/fingerprint.go:177-193 | every name over [a-z0-9-] that ends in a generated suffix normalises to its workload through all three levels |
| Values.BuiltPodIsPodOf | backend/internal/fingerprint/fingerprint.go:179-180 | a name built as base, hash or minute, and suffix is a pod of its base |
| Values.BuiltBareIsPodOf | backend/internal/fingerprint/fingerprint.go:181-182 | so is a name built as base and mixed bare suffix, DaemonSet pod or ReplicaSet |
| Values.PathToPodValue | backend/internal/fingerprint/fingerprint.go:121-128 | in a namespace/pod path the pod becomes its workload and the namespace is rewritten on its own |
| Tokens.GuardsAreFilters | backend/internal/fingerprint/fingerprint.go:147-175 | the length and character checks in front of the patterns change no result |
| Tokens.DateShape | backend/internal/fingerprint/fingerprint.go:107 | the date pattern forces the length and characters the filter asks for |
| Tokens.ClockShape | backend/internal/fingerprint/fingerprint.go:109 | the clock pattern forces the length and the colon the filter asks for |
| Tokens.UuidShape | backend/internal/fingerprint/fingerprint.go:105 | the UUID pattern forces length 36, its first dash and no dash in the last group |
| Shapes.DatesAre | backend/internal/fingerprint/fingerprint.go:107 | the date pattern matches exactly the dates with either separator, alone or with a time of day, its seconds, fraction and zone, read character by character |
| Shapes.ClocksAre | backend/internal/fingerprint/fingerprint.go:109 | the clock pattern matches exactly hh:mm:ss with or without fraction and zone |
| Shapes.UuidsAre | backend/internal/fingerprint/fingerprint.go:105 | the UUID pattern matches exactly the five groups of hexadecimal digits |
| Shapes.HexIDsAre | backend/internal/fingerprint/fingerprint.go:171-173 | an ID is at least twelve hexadecimal digits with a letter and a decimal digit among them |
| Shapes.PlaceholdersAre | backend/internal/fingerprint/fingerprint.go:149-175 | which placeholder each time, UUID, address, number and ID becomes, numbers by length and value |
| Shapes.PortsAre | backend/internal/fingerprint/fingerprint.go:160-167 | a word is read as its host exactly when what stands behind the colon is a number |
| Shapes.ZonedAddress | backend/internal/fingerprint/fingerprint.go:240-245 | an address is one with a zone behind it too |
| Tokens.TimestampsAre | backend/internal/fingerprint/fingerprint.go:224-238 | the numbers that become "<ts>" are exactly the Unix times of 2001-09-09 to 2100 in one of four units; those kept are the ones under six digits |
| Tokens.PodNormalizesToBase | backend/internal/fingerprint/fingerprint.go:149-210 | no date, UUID, address or number branch claims a pod name, for any base, hash or minute and suffix |
| Tokens.SuffixedToken | backend/internal/fingerprint/fingerprint.go:149-210 | no other rule claims a name without '.' and ':' that ends in a generated suffix; it becomes the name without it |
| Tokens.PortIsDropped | backend/internal/fingerprint/fingerprint.go:160-167 | host:port becomes what the host alone becomes, for every port and every host, IPv4 and bracketed IPv6 included |
| Tokens.FixedExactlyWhen | backend/internal/fingerprint/fingerprint.go:149-175 | a word is left alone if and only if none of the rules applies to it |
| Tokens.SecondPassExactlyWhen | backend/internal/fingerprint/fingerprint.go:149-210 | a second pass changes nothing if and only if no generated suffix is cut off a word, or off the host before a port, whose rest falls under a rule itself |
| Tokens.NotIdempotent | backend/internal/fingerprint/fingerprint.go:149-210 | a concrete word that a second pass changes again |
| Tokens.TwoSuffixesTakeTwoPasses | backend/internal/fingerprint/fingerprint.go:188-210 | a name with two bare suffixes loses one per pass |
| PodSuffix.StripMeetsPatterns | backend/internal/fingerprint/fingerprint.go:177-210 | the hand-written stripper is the prioritised choice among the documented patterns, in both directions |
| PodSuffix.PodIsStripped | backend/internal/fingerprint/fingerprint.go:179-187 | a name matching the pod pattern yields its base |
| PodSuffix.StrippedIsPattern | backend/internal/fingerprint/fingerprint.go:188-210 | whatever is stripped matches a pattern, the pod pattern first |
| PodSuffix.SuffixBaseMeetsPatterns | backend/internal/fingerprint/fingerprint.go:177-210 | read on segments, a name ends in a generated suffix if and only if the patterns, pod first, say so |
| PodSuffix.ScanK8sSuffix | backend/internal/fingerprint/fingerprint.go:215-222 | the loop decides membership of every character in the suffix alphabet |
| PodSuffix.ScanDigits | backend/internal/fingerprint/fingerprint.go:247-257 | the loop decides whether a non-empty text is all digits |
| PodSuffix.IngestOnSegments | backend/internal/ingest/alert_service.go:104-111 | what the two regular expressions strip, segment by segment |
| PodSuffix.StrippersAgreeExactlyWhen | backend/internal/ingest/alert_service.go:19-24 | the two implementations agree on a name if and only if a condition on its last two segments holds |
| PodSuffix.DeploymentPodsAgree | backend/internal/ingest/alert_service.go:104-111 | both give the workload for every Deployment pod with a non-empty base |
| PodSuffix.DaemonSetPodsAgree | backend/internal/ingest/alert_service.go:104-111 | both give the workload for every mixed DaemonSet suffix not preceded by a hash or minute |
| PodSuffix.OrdinalIsKept | backend/internal/ingest/alert_service.go:104-105 | both keep ordinals shorter than five digits |
| PodSuffix.OnlyMixedIsCut | backend/internal/fingerprint/fingerprint.go:184-187 | a last part without digit or without letter is kept unless a hash or minute stands before it |
| PodSuffix.CronJobPodsDiffer | backend/internal/fingerprint/fingerprint.go:180-184 | on CronJob pods one strips the minute and the other does not |
| PodSuffix.PlainWordsDiffer | backend/internal/ingest/alert_service.go:17-24 | on a five-letter word over the suffix alphabet the regular expression strips and the hand-written code does not |
| Regex.K8sAlphabet | backend/internal/ingest/alert_service.go:17-19 | the character test accepts exactly the listed alphabet |
| RateLimiter.WebhookRateLimiter.Allow | backend/internal/middleware/rate_limiter.go:38-64 | one call changes the key's bucket and answers as the bucket machine says, other buckets untouched; what the machine allows and refuses over whole runs: RateBound and RefusedMeansQuotaUsed |
| RateLimiter.WebhookRateLimiter.Cleanup | backend/internal/middleware/rate_limiter.go:99-112 | removes exactly the buckets idle for more than ten minutes, in any map order |
| RateLimiter.RateBound | backend/internal/middleware/rate_limiter.go:38-64 | in every run, over any closed interval of n windows, at most (n + 1) * limit - 1 calls of a key are allowed |
| RateLimiter.BoundedExactlyWhen | backend/internal/middleware/rate_limiter.go:43-51 | the bound holds for all runs if and only if the limit is positive and the window at most ten minutes |
| RateLimiter.BoundIsReached | backend/internal/middleware/rate_limiter.go:53-57 | for every number of windows up to the window's nanoseconds a run in order attains the bound |
| RateLimiter.RefusedMeansQuotaUsed | backend/internal/middleware/rate_limiter.go:53-62 | in every run in order, evictions included and for every limit and window, a refused call has at least limit allowed calls of its key within the window before it |
| RateLimiter.EvictionIsInvisibleExactlyWhen | backend/internal/middleware/rate_limiter.go:98-112 | evictions never change an answer if and only if the limit is positive and the window at most ten minutes |
| RateLimiter.SimulatedAnswers | backend/internal/middleware/rate_limiter.go:103-110 | a limiter that evicts simulates one that does not, resting on nextRefill <= lastSeen + window |
| RateLimiter.CallSpendsPotential | backend/internal/middleware/rate_limiter.go:53-63 | each allowed call is paid for out of tokens left and refills that still fit |
| AgentAuth.NonceCache.Use | backend/internal/middleware/agent_auth.go:139-149 | true exactly on first use; a replay leaves the cache unchanged |
| AgentAuth.NonceCache.Cleanup | backend/internal/middleware/agent_auth.go:151-160 | removes exactly the expired nonces, in any map order |
| AgentAuth.Authenticator.Authenticate | backend/internal/middleware/agent_auth.go:208-299 | the answer, for every setup, cache, request and 64-bit reading: who is verified, who passes through and for which fault a request is refused; only a verified request enters the cache, for ten minutes |
| AgentAuth.AnswersAre | backend/internal/middleware/agent_auth.go:207-298 | a request passes without signature exactly in open dev mode or with the dev token; otherwise it is verified, as the agent it names and of that agent's stored tenant, if and only if it has none of nine faults, each stated by itself, and is refused for the first it has |
| AgentAuth.ParsedAre | backend/internal/middleware/agent_auth.go:234 | a timestamp is decimal digits with at most one sign, within 64 bits |
| AgentAuth.ScreenedIsSigned | backend/internal/middleware/agent_auth.go:272-284 | if only the messages of a set were ever signed, a request that gets as far as the nonce cache is one of them in method, agent, timestamp, nonce and body hash |
| AgentRuns.VerifiesOnceExactlyWhen | backend/internal/middleware/agent_auth.go:208-299 | no run of requests and cleanups, ordered by the lock and with readings taken before, verifies a message twice if and only if the timed protocol is replay safe |
| AgentRuns.VerifiedAreSignedOnce | backend/internal/middleware/agent_auth.go:275-290 | in every such run the verified requests are distinct members of the set of signed messages |
| AgentRuns.AskIsUse | backend/internal/middleware/agent_auth.go:233-290 | a screened request is the protocol's use of a request checked and stamped at its clock readings, and the invariant survives it |
| AgentRuns.CodeVerifiesTwice | backend/internal/middleware/agent_auth.go:139-149 | with the code's constants on the nanosecond clock some run verifies a message twice, whatever the delay |
| AgentAuth.CanonicalBinds | backend/internal/middleware/agent_auth.go:275 | the signed text determines method, agent, timestamp, nonce and body hash when the fields hold no line feed |
| AgentAuth.WindowMeans | backend/internal/middleware/agent_auth.go:233-238 | the 64-bit window check is the plain one except at one distance, for any window |
| AgentAuth.WindowSpread | backend/internal/middleware/agent_auth.go:233-238 | one timestamp is accepted over at most twice the window, wrap-around included |
| Replay.ReplaySafeExactlyWhen | backend/internal/middleware/agent_auth.go:286-290 | with the 64-bit window check, no run of requests, ticks and cleanups accepts a message twice if and only if lifetime >= 2 * window + one clock unit - one tick + delay |
| Replay.TenMinutesIsTheBoundary | backend/internal/middleware/agent_auth.go:139-149 | the constants are exactly enough on whole seconds without delay, and not on nanoseconds |
| Replay.RunKeepsInv | backend/internal/middleware/agent_auth.go:139-160 | every step of every run keeps each accepted nonce cached or past its expiry |
| Replay.EdgeRunReplays | backend/internal/middleware/agent_auth.go:151-160 | with any shorter lifetime a ten-step run breaks the property |
| Substitution.ChainsAreOnePass | backend/internal/ingest/custom_mapper.go:130-153 | on a decided template, with no token in the values of the tokens that occur, every pair of orders gives the simultaneous substitution, canonical values winning |
| MapOrder.AlwaysOnePassExactlyWhen | backend/internal/ingest/custom_mapper.go:128-153 | for fixed template and tokens, all orders give that substitution for all values without '$' if and only if the template is decided for both loops |
| MapOrder.OrderFreeExactlyWhen | backend/internal/ingest/custom_mapper.go:141-144 | all orders of one loop agree for all values without '$' if and only if the template is decided for its tokens |
| MapOrder.BothOrderFreeExactlyWhen | backend/internal/ingest/custom_mapper.go:141-151 | all pairs of orders agree if and only if the template is decided for the canonical tokens and the first loop leaves a text decided for the raw ones, for values no longer than the longest raw token |
| MapOrder.ShortValuesSuffice | backend/internal/ingest/custom_mapper.go:141-151 | longer values change nothing about that |
| MapOrder.LoopSplits | backend/internal/ingest/custom_mapper.go:141-151 | on any undecided text some values without '$' make two orders end in texts that no later loop with empty values makes equal |
| Substitution.PrefixFreeIsDecided | backend/internal/ingest/custom_mapper.go:128-129 | prefix-free tokens make every template decided in which each '$' begins a token or nothing like one |
| Template.ReplaceInParts | backend/internal/ingest/custom_mapper.go:143 | replacing all copies of one token touches exactly the segments that begin with it |
| CustomMapper.ApplyTitleTemplate | backend/internal/ingest/custom_mapper.go:130-153 | the title is one that some pair of iteration orders gives, canonical tokens replaced before payload ones |
| CustomMapper.Map | backend/internal/ingest/custom_mapper.go:43-100 | the event is one of the outcomes of the field map, defaults, title and labels for some iteration orders |
| CustomMapper.TitleDependsOnOrder | backend/internal/ingest/custom_mapper.go:141-151 | one mapping and one payload without '$' in any value for which two different titles are possible |
| CustomMapper.DollarInValueMatters | backend/internal/ingest/custom_mapper.go:146-151 | the same for a payload value that is itself a token |
| CustomMapper.EventIsFilled | backend/internal/ingest/custom_mapper.go:73-91 | in every outcome severity and signal type are empty only without defaults, and the severity is the default, a mapped one or one the map does not know |
| CustomMapper.OneResultExactlyWhen | backend/internal/ingest/custom_mapper.go:43-71 | all orders of the field map give the same fields if and only if entries writing one field agree on its value |
| CustomMapper.MapIsWellDefined | backend/internal/ingest/custom_mapper.go:43-100 | when writers agree and the template is decided every run gives the same event, its title the one-pass substitution, whatever keys and values the template does not use |
| MappedEvents.TitleIsField | backend/internal/ingest/custom_mapper.go:131-144 | in every outcome a template that is one of the eight canonical tokens gives the field of that name, if no '$' is in it |
| MappedEvents.TitleIsValue | backend/internal/ingest/custom_mapper.go:146-151 | a template that is a payload key, which neither a canonical name nor another key begins, gives that key's value |
| MappedEvents.FieldsAreSent | backend/internal/ingest/custom_mapper.go:43-86 | each field of every outcome is a non-empty value the mapping sends to its name, or empty when none is sent; severity and signal type then mapped and filled, the time parsed or the clock's |
| MappedEvents.LabelsAre | backend/internal/ingest/custom_mapper.go:93-98 | the labels are the payload keys whose value reads as something, with what it reads as |
| Passwords.Pbkdf2Key | backend/internal/handlers/auth_handler.go:369-391 | the in-place XOR loop computes U1 xor ... xor Uc over the salt and block index 1, cut to the key length |
| Passwords.OneBlockIsPbkdf2ExactlyWhen | backend/internal/handlers/auth_handler.go:369-391 | that is the derived key of section 5.2 of RFC 8018 if and only if the key is at most one block long |
| Passwords.HexRoundTrip | backend/internal/handlers/auth_handler.go:332 | hex decoding undoes hex encoding |
| Passwords.HexAt | backend/internal/handlers/auth_handler.go:332 | each byte is written as its two digits in base 16, the higher first, in lower case |
| Passwords.DecodesExactlyWhen | backend/internal/handlers/auth_handler.go:345-352 | hex decodes if and only if it is an even number of hexadecimal digits in either case |
| Passwords.HashPassword | backend/internal/handlers/auth_handler.go:326-333 | the stored form of a password and salt |
| Passwords.CheckPassword | backend/internal/handlers/auth_handler.go:337-366 | accepts exactly by the new form after its prefix and by the legacy form otherwise |
| Passwords.AcceptsExactlyWhen | backend/internal/handlers/auth_handler.go:337-366 | whatever text is stored, a password is accepted if and only if the text is the prefix with hex salt and the hex key derived by 10000 rounds, or, without the prefix, a salt and the hex digest of salt and password |
| Passwords.StoredAccepts | backend/internal/handlers/auth_handler.go:326-355 | a stored hash accepts its own password, and another exactly when the derived keys are equal |
| Passwords.LegacyIsNotNew | backend/internal/handlers/auth_handler.go:337-366 | no legacy hash is read as the new form |
| Passwords.LegacyAccepts | backend/internal/handlers/auth_handler.go:357-365 | a legacy hash accepts exactly the passwords with its digest |
| Passwords.Accounts.Login | backend/internal/handlers/auth_handler.go:99-120 | login answers by the old hash, replaces only a legacy one, and the same password still verifies afterwards |
| Jwt.Base64RoundTrip | backend/internal/middleware/jwt_auth.go:165-171 | base64url decoding undoes encoding for all bytes |
| Jwt.AlphabetIs | backend/internal/middleware/jwt_auth.go:165-167 | each character stands at its position in the alphabet of RFC 4648 |
| Jwt.EncodedIsTheNumber | backend/internal/middleware/jwt_auth.go:165-167 | the characters read in base 64 are the number the bytes are in base 256, the spare bits of a short last group being zeros |
| Jwt.OnlyTheAlphabet | backend/internal/middleware/jwt_auth.go:169-171 | no other character stands for anything |
| Jwt.EncodedIsIn64 | backend/internal/middleware/jwt_auth.go:165-167 | the encoding never holds a dot or a line break |
| Jwt.TokenRoundTrip | backend/internal/middleware/jwt_auth.go:31-83 | a generated token is header, claims and MAC in compact form, and verifies to its claims if and only if they have no expiry or are not past it |
| Jwt.OtherSecret | backend/internal/middleware/jwt_auth.go:61-66 | under another secret it is refused if and only if the MACs differ |
| Jwt.AcceptedExactlyWhen | backend/internal/middleware/jwt_auth.go:55-83 | a text is accepted with given claims if and only if it is two dot-free parts and their signature, decodes to the claims and is not expired |
| Jwt.LineBreaksAreSkipped | backend/internal/middleware/jwt_auth.go:169-171 | line feeds and carriage returns in the encoded text do not change what it decodes to |
| EventIds.SameIDExactlyWhen | backend/internal/handlers/grafana_ingest.go:157-163 | for all keys, two event IDs are equal if and only if the keys are, or one tenant's name begins the other's and the rest of the ID overlaps it |
| EventIds.TenantsApartExactlyWhen | backend/internal/handlers/ingest_handler.go:266-272 | no ID of one tenant is an ID of another if and only if neither name, with a dash behind it, begins the other |
| EventIds.DashInFingerprint | backend/internal/handlers/ingest_handler.go:269-272 | a dash in a fingerprint makes IDs of two tenants equal |
| EventIds.RegularIDsExactlyWhen | backend/internal/handlers/zabbix_ingest.go:162-165 | without dashes in fingerprints and event IDs, and with organisations not negative, only two named clashes with a Grafana clock ID are left |
| EventStore.OwnersAreKept | backend/internal/store/event_store.go:286-336 | whatever is saved, no row is lost and none changes its tenant |
| EventStore.SaveLeavesRow | backend/internal/store/event_store.go:286-336 | one save changes at most the row of its ID: inserted with tenant "default" for none, fingerprint and status updated on the tenant's own row, another tenant's row left |
| Ingest.IngestHandler.SaveEvent | backend/internal/store/event_store.go:286-336 | a save inserts, updates the tenant's own row or leaves another tenant's alone |
| Ingest.IngestHandler.IngestAlertmanager | backend/internal/handlers/ingest_handler.go:240-360 | rows, correlation calls, count and success record after one webhook, saves failing or not |
| Ingest.IngestHandler.IngestGrafana | backend/internal/handlers/grafana_ingest.go:85-130 | the same for Grafana, a test alert being opened and resolved at once |
| Ingest.IngestHandler.IngestZabbix | backend/internal/handlers/zabbix_ingest.go:271-308 | the same for Zabbix, updates changing no row and noted when a noter is wired, errors changing nothing |
| Ingest.ResolvedInAnyCase | backend/internal/handlers/ingest_handler.go:273-276 | the status is "resolved" if and only if the trimmed text is that word in any case, and otherwise "firing" |
| Ingest.VerdictIs | backend/internal/handlers/zabbix_ingest.go:71-103 | which Zabbix payload is a test, lacks fields, or is an update, recovery or problem, read from event ID, trigger, host, update status, event value and event status |
| Ingest.ZbxDelivery | backend/internal/handlers/zabbix_ingest.go:271-308 | a stored recovery leaves status "resolved" and one ProcessResolved, a stored problem "firing" and one ProcessEvent, under the ID and fingerprint spelled out |
| Delivery.AlertmanagerAlert | backend/internal/handlers/ingest_handler.go:262-352 | among all alerts of a webhook, one that is saved is saved once with its ID, fingerprint and status spelled out, and makes exactly one ProcessResolved or one ProcessEvent; one that is not makes nothing |
| Delivery.GrafanaAlert | backend/internal/handlers/grafana_ingest.go:101-225 | the same for every Grafana alert that is no test |
| Delivery.GrafanaTestAlert | backend/internal/handlers/grafana_ingest.go:107-117 | a test is saved firing and processed, then saved resolved and processed as resolved if that save succeeds, whatever status it has |
| Delivery.OneAlertmanagerAlert | backend/internal/handlers/ingest_handler.go:262-352 | over any store, the row and the call a webhook with one alert leaves |
| Delivery.CountsTheSaved | backend/internal/handlers/ingest_handler.go:353 | the count answered is the number of alerts whose save succeeded |
| IngestRuns.RowBelongsToFirst | backend/internal/store/event_store.go:334-336 | after any run each row is the tenant's that had it or saved it first, and there are rows for no other IDs |
| IngestRuns.RowShowsLast | backend/internal/store/event_store.go:309-336 | a tenant's row shows the last message that tenant saved under its ID, in every run |
| IngestRuns.NoRowExactlyWhen | backend/internal/handlers/ingest_handler.go:340-352 | a message that is saved and counted has no row of its tenant if and only if its ID was another tenant's first, in the store or in the run |
| IngestRuns.SecondTenantHasNoRow | backend/internal/handlers/ingest_handler.go:269-272 | two tenants' alerts without fingerprint at one nanosecond: both are counted, the row stays the first one's |
| IngestRuns.SeparateExactlyWhen | backend/internal/handlers/grafana_ingest.go:157-163 | in any run messages share an ID only about the same alert if and only if no two share a clock reading in their IDs or overlap at their tenants' names; each message without fingerprint or event ID is an alert of its own |
| IngestRuns.NamedRunsAreSeparate | backend/internal/handlers/zabbix_ingest.go:162-165 | runs of messages with fingerprints or event IDs are, whatever these hold, when no tenant's name with a dash begins another's |
| IngestRuns.DashFreeRunsAreSeparate | backend/internal/handlers/zabbix_ingest.go:162-165 | and whatever the tenants are called when fingerprints and event IDs hold no dash |
| IngestRuns.OneGrafanaWebhookIsSeparate | backend/internal/handlers/grafana_ingest.go:99-102 | the clock and index in the IDs of one Grafana webhook keep all its alerts and tests apart |
| IngestRuns.WebhooksCanCollide | backend/internal/handlers/grafana_ingest.go:258-270 | of two alerts or tests of two webhooks whose clock and index add up to the same the row shows only the later |
| IngestRuns.RowOfAlert | backend/internal/handlers/grafana_ingest.go:99-124 | in a separate run a saved message's row is its tenant's, unless the store held the ID for another one, and shows the last saved message of that alert, a Grafana test ending resolved |
| IngestRuns.RunOfWebhooks | backend/internal/handlers/ingest_handler.go:262-360 | any run of the three webhooks, rejected bodies and failed saves included, writes what one run of its messages writes |
| IngestRuns.WebhookRows | backend/internal/handlers/ingest_handler.go:266-272 | after any run of webhooks a saved message has a row of its tenant unless its ID was another's first, and the row shows the last message its tenant saved under the ID |
| IngestRuns.ApartTenantsKeepRows | backend/internal/handlers/ingest_handler.go:266-272 | with IDs made for the tenant and names that keep apart, no tenant loses a row to another |
| TenantCache.TenantIsolation.CachedState | backend/internal/middleware/tenant_isolation.go:74-87 | returns the unexpired cached state or the store's, caching the latter for 30 seconds |
| TenantCache.CachedFor30Seconds | backend/internal/middleware/tenant_isolation.go:74-87 | a state read at a moment is the one seen for exactly 30 seconds, whatever the store says meanwhile |
| TenantCache.TenantIsolation.InvalidateCache | backend/internal/middleware/tenant_isolation.go:69-72 | removes exactly one tenant's entry |
| TenantCache.TenantIsolation.Enforce | backend/internal/middleware/tenant_isolation.go:46-67 | a suspended tenant gets Suspended, a disabled one Disabled, every other state, an unknown tenant and a request without claim pass |
| TenantCache.FreshAfterInvalidate | backend/internal/handlers/tenant_admin_handler.go:220-225 | with whole calls, every check after a change and its invalidation sees the new state until the next change |
| TenantCache.BoundedStaleness | backend/internal/middleware/tenant_isolation.go:74-87 | in every interleaving, a state acted on was the store's less than 30 seconds plus the fill's delay ago |
| TenantCache.StalenessIsReached | backend/internal/middleware/tenant_isolation.go:76-85 | a run in which a state is acted on exactly one nanosecond short of that bound |
| TenantCache.StepKeepsInv | backend/internal/middleware/tenant_isolation.go:46-87 | every step of a call, the store and the clock keeps the age of entries and reads bounded |
| TenantCache.FreshFromExactlyWhen | backend/internal/middleware/tenant_isolation.go:69-87 | from any state on, every check in every interleaving sees the tenant's current state until it is set again, if and only if cache entry and running calls hold only current or harmless states |
| TenantCache.LateFillRestoresOldState | backend/internal/middleware/tenant_isolation.go:81-85 | a fill overlapping change and invalidation caches and acts on the old state |
| HealthScores.SortHealthScores | backend/internal/handlers/health_score_handler.go:193-200 | the slice ends ordered by score with equal scores in their old order |
| HealthScores.StableSortIsUnique | backend/internal/handlers/health_score_handler.go:193-200 | only one arrangement has those two properties |
| HealthScores.GroupsGivePermutation | backend/internal/handlers/health_score_handler.go:193-200 | equal groups make the result a permutation of the input |
| HealthScores.BuildSummary | backend/internal/handlers/health_score_handler.go:170-191 | the four counts and the truncated average of the slice |
| HealthScores.CountsAddUpExactlyWhen | backend/internal/handlers/health_score_handler.go:177-188 | the counts sum to the length if and only if every risk is one of the four |
| HealthScores.AverageIsBetween | backend/internal/handlers/health_score_handler.go:189 | the truncated average lies between the least and the greatest score |
| HealthScores.AverageIsTruncated | backend/internal/handlers/health_score_handler.go:189 | the average is the exact one without its fraction, rounded towards zero |
| HealthScores.CountRiskIs | backend/internal/handlers/health_score_handler.go:177-188 | each count is the number of tenants whose risk is spelled so |

## Left out

- Unicode: text is ASCII, so case folding and trimming of other characters is not modelled.
- The insides of SHA-256, HMAC, AES-GCM, random generation, JSON, time parsing, `net.ParseIP` and `net.SplitHostPort`.
- Everything behind the correlation service, its saving of backfilled fingerprints included: it is a record of calls.
- HTTP decoding, headers, idempotency records and response writing around the handlers.
- Service, severity, title, message and labels of ingested events, and the exporter rules of `DeriveAlertService`: long, with easy members only.
- The error for a custom payload that is not a JSON object; timestamps of mapped events are opaque text.
- Replay.ReplaySafeExactlyWhen: holds for clocks that do not reach the end of their 64-bit seconds within a message's window.
- RateLimiter.WebhookRateLimiter.Allow: the mutex is not modelled, each call and each cleanup round is one step.
- AgentAuth.ScreenedIsSigned: that signatures cannot be forged is a premise about the MAC, which is not part of this model.
- TenantCache.BoundedStaleness: the fill's delay is a bound assumed of each run, since nothing in the code limits it.
- Ingest.IngestHandler.SaveEvent: of a row only tenant, source, fingerprint and status are kept, and the database's failures are an input of the webhooks.
- TenantCache.TenantIsolation.CachedState: the store's value is what `GetState` returns, which is "active" also when the read fails.
