# Verification of the AP invoice platform

A Dafny model of the parts of the invoice platform that decide something, with proofs of what they promise. Each
operation that changes state is a method or a class proved against a specification function; the theorems are
lemmas about those functions, over all inputs, all runs or all interleavings.

`dafny verify dfyconfig.toml` checks the whole project.

## Components

- Schema compiler (`SchemaCleaner`, `SchemaMeaning`, `SchemaInlining`, `SchemaRewriting`, `SchemaTheorems`): inlines
  references, strips annotations and rewrites nullable unions. The meaning of a schema is the set of JSON values it
  accepts, for every meaning of the remaining keywords that sees subschemas through what they accept; `$ref`, `$defs` and
  `anyOf` follow JSON Schema Core 2020-12 (sections 8.2.3.1, 8.2.4 and 10.2.1.2),
  annotations JSON Schema Validation 2020-12 (sections 9.1 and 9.2), and `nullable` OpenAPI 3.0.3 (section 4.7.24),
  where it widens `type` and nothing else. The fragment: object definitions that references can follow, only annotations
  beside `$ref` and `anyOf`, unions of the form `[T, null]` with a non-empty object `T` that is not of type `null`
  itself, no `nullable`, and no property or literal member named `$ref`, `anyOf`, `default`, `title` or `$defs`.
  References and unions may stand under every keyword with subschemas: one (`items`, `additionalProperties`, `not`,
  ...), an object of them (`properties`, ...) or a list (`allOf`, ...).
- Retrieval (`Paragraphs`, `Chunking`, `ChunkingTheorems`, `Embedding`, `Similarity`, `Ranking`, `PolicyIndex`,
  `PolicyIndexSafety`, `PolicyIndexFrames`, `LlmDecision`): chunks, embeddings, top-k search, and the tables of documents,
  chunks and rules.
- Accounts (`Accounts`, `AccountSafety`, `Registration`, `OtpRace`): users and one-time codes, serially with commit and
  rollback, and with overlapping verify calls.
- Names (`Text`, `Parsing`, `NormalForms`, `VendorNormaliser`) and duplicates (`DuplicateDetector`, `DuplicateMeasures`,
  `DuplicateRanking`, `Rounding`).
- Payment terms (`Calendar`, `TermsParser`, `TermsSpellings`, `PaymentTerms`) and completeness (`Completeness`).
- Vendor policies (`VendorPolicies`) and the invoice pipeline (`Pipeline`, `PipelineSafety`, `PipelineTheorems`,
  `PipelineChecks`, `PipelineOutcomes`, `DuplicateCoverage`, `ApprovalPolicy`): invoices, vendors, policies and the audit trail
  under creation, processing, manual transitions, deletion and vendor edits, with the verdict of the language model as a
  free choice.

## Findings

In these places a promise holds only under a condition, or less than one would expect; the code is modelled as it is.

- The nullable rewrite keeps `null` exactly if the kept schema lets `null` past its other keywords. A nullable enumeration
  without `null` loses it (`SchemaTheorems.RewriteIsExact`, `SchemaTheorems.NullableEnumExactly`).
- The duplicate guardrail compares the canonical name of one invoice with the raw names of the others. It is safe exactly
  for names whose vendors all have canonical names like them, and two invoices of any other name can both be approved
  (`DuplicateCoverage.CoveredTwinsAreNotBothApproved`, `DuplicateCoverage.UncoveredTwinsAreApproved`).
- The most confident duplicate match need not be the exact one; when it is, is decided by the amounts
  (`DuplicateRanking.NearMatchLeads`, `DuplicateRanking.ExactLeadsExactly`).
- A dated invoice with a negative amount and terms of its own can never be processed, as their calculation admits no
  negative amount (`PipelineTheorems.NegativeAmountIsNeverProcessed`, `PipelineTheorems.ProcessingFailsExactly`).
- Verifying an address that is verified already succeeds whatever the code, and the route answers with a session token
  (`AccountSafety.VerifyAnswersOkExactly`; `src/ap_invoice/api/routes/auth.py:82-94`).
- Discount and remainder add up to the amount only for amounts in whole cents (`PaymentTerms.DiscountConservesAmount`).

Where documentation and code disagree, the code is followed: `docs/policy-engine.md` describes a structured engine that
is superseded, and `src/ap_invoice/models/policy_document.py:5` says that only structured rules are enforced while
`decide` reads the policy text.

## Conventions

- Text is ASCII, and case folding is that of ASCII letters. Money, confidences and scores are exact reals; dates are
  proleptic Gregorian days of the years 1 to 9999; other times are integers.
- Fuzzy scores, token hashes, square roots, code hashes and the matching of a guess to a hash are parameters. A proof
  assumes of them only what its lemma requires.
- A Python exception is `Raised`. Python's recursion limit is the number of references that `resolve` may follow in
  one nest.
- New rows take the next unused number; users are keyed by their normalised email address.
- The order in which vendor rows are read is free in every processing request.
- The model's duplicate-check event records the lookback of the policy that the check was made under.

## Model

| member | source | states |
|---|---|---|
| `SchemaTheorems.CleanPreservesMeaning` | src/ap_invoice/services/llm/providers.py:256-302 | In the fragment, the cleaned schema alone accepts exactly the JSON values that the original accepts under its definitions, if every nullable schema lets `null` past its other keywords. |
| `SchemaTheorems.CleanIsExact` | src/ap_invoice/services/llm/providers.py:256-302 | That condition, read off the original schema, is exact: it holds if and only if the rewrite preserves the meaning of every schema inside the inlined one. |
| `SchemaTheorems.RewriteIsExact` | src/ap_invoice/services/llm/providers.py:283-299 | The nullable rewrite preserves the meaning of every schema inside an inlined schema if and only if each nullable schema, typed or not, lets `null` past its other keywords. |
| `SchemaTheorems.ReadyIsPreserved` | src/ap_invoice/services/llm/providers.py:283-299 | Where every union is ready, the rewrite preserves the meaning of each schema inside. |
| `SchemaTheorems.PreservedIsReady` | src/ap_invoice/services/llm/providers.py:283-299 | And where it preserves them, every union is ready. |
| `SchemaTheorems.NullableEnumExactly` | src/ap_invoice/services/llm/providers.py:292-295 | A nullable enumeration keeps its meaning exactly if `null` is among its values. |
| `SchemaTheorems.UnreadyUnionLosesNull` | src/ap_invoice/services/llm/providers.py:292-295 | Where a kept schema stops `null`, the union accepts it before and rejects it after the rewrite. |
| `SchemaTheorems.NullableEnumLosesNull` | src/ap_invoice/services/llm/providers.py:292-295 | A concrete case: a nullable enumeration of strings without `null` among its values loses `null`. |
| `SchemaTheorems.SecondOptionIsForgotten` | src/ap_invoice/services/llm/providers.py:288-295 | Outside the fragment: of two non-null options the rewrite forgets the second, and values are lost. |
| `SchemaTheorems.EmptyOptionKeepsUnion` | src/ap_invoice/services/llm/providers.py:287-299 | Outside the fragment: a union whose first non-null option is the empty schema stays a union. |
| `SchemaTheorems.TitlePropertyIsDropped` | src/ap_invoice/services/llm/providers.py:267 | Outside the fragment: a property called `title` disappears together with its constraint. |
| `SchemaTheorems.CleanIsIdempotent` | src/ap_invoice/services/llm/providers.py:256-302 | The result contains no `$ref`, `anyOf`, `default`, `title` or `$defs` at any depth, and cleaning it again changes nothing. |
| `SchemaTheorems.AcyclicEnds` | src/ap_invoice/services/llm/providers.py:264-278 | On acyclic definitions `resolve` ends for every schema whatever: references nest no deeper than the rank reached, and every larger recursion limit gives the same result. |
| `SchemaTheorems.AcyclicResolves` | src/ap_invoice/services/llm/providers.py:264-278 | It raises nothing there if references are strings and definitions objects. |
| `SchemaTheorems.AcyclicCleans` | src/ap_invoice/services/llm/providers.py:256-302 | Cleaning ends on every acyclic schema with the same result for all large enough recursion limits, and succeeds on those of the fragment. |
| `SchemaTheorems.CyclicNeverResolves` | src/ap_invoice/services/llm/providers.py:268-274 | On definitions that keep referring to one another every recursion limit is exhausted. |
| `SchemaTheorems.RefsStayBelow` | src/ap_invoice/services/llm/providers.py:268-274 | A schema whose references stay below a rank keeps them below every higher one. |
| `SchemaTheorems.FragmentIsSound` | src/ap_invoice/services/llm/providers.py:268-271 | Every reference of a fragment schema is a string, under whatever keyword it stands. |
| `SchemaInlining.InlineIsFaithful` | src/ap_invoice/services/llm/providers.py:264-280 | Inlining references and stripping annotations preserves meaning and readiness, at every depth that inlining reaches and under every keyword, and leaves no `$ref`, `title`, `default` or definitions. |
| `SchemaInlining.InlineArgument` | src/ap_invoice/services/llm/providers.py:275-278 | The same for the argument of each keyword: with one subschema, an object or a list of them, or a literal. |
| `SchemaInlining.InlineReference` | src/ap_invoice/services/llm/providers.py:268-274 | The same for a reference and the annotations beside it. |
| `SchemaInlining.InlineNotNull` | src/ap_invoice/services/llm/providers.py:268-274 | Following references to a schema that is not the schema of `null` leaves one. |
| `SchemaInlining.InlineNonEmpty` | src/ap_invoice/services/llm/providers.py:268-274 | Following references to a non-empty schema leaves one. |
| `SchemaInlining.InertMeansNothing` | src/ap_invoice/services/llm/providers.py:273-274 | Annotations written over an inlined schema change neither what it accepts nor its readiness. |
| `SchemaInlining.ResolvesReference` | src/ap_invoice/services/llm/providers.py:268-274 | A reference becomes its resolved definition, overwritten by the annotations beside it. |
| `SchemaRewriting.RewriteShape` | src/ap_invoice/services/llm/providers.py:283-299 | The rewrite always succeeds on an inlined schema and leaves none of the names it removes. |
| `SchemaRewriting.RewriteMembers` | src/ap_invoice/services/llm/providers.py:296 | Without a union at the top the rewrite changes only subschemas. |
| `SchemaRewriting.RewrittenMembersMean` | src/ap_invoice/services/llm/providers.py:296-298 | An object whose subschemas keep their meaning keeps its own. |
| `SchemaRewriting.NullableMeaning` | src/ap_invoice/services/llm/providers.py:293-295 | Adding annotations and `nullable` adds `null` to what a schema accepts, exactly when its other keywords let `null` pass. |
| `SchemaRewriting.RewrittenUnionMeans` | src/ap_invoice/services/llm/providers.py:285-295 | What the rewritten union accepts, in terms of the option it keeps. |
| `SchemaRewriting.UnionIsPreservedExactly` | src/ap_invoice/services/llm/providers.py:285-295 | A union whose kept option keeps its meaning keeps its own exactly if that option is itself a union or lets `null` past its other keywords. |
| `SchemaMeaning.UnionMeaning` | src/ap_invoice/services/llm/providers.py:285-295 | A `[T, null]` union accepts `null` and whatever `T` accepts. |
| `SchemaMeaning.ReferenceMeaning` | src/ap_invoice/services/llm/providers.py:268-274 | A reference accepts what its definition accepts. |
| `SchemaCleaner.FirstNonNull` | src/ap_invoice/services/llm/providers.py:287-291 | The first option that is an object whose `type` is not `null`, and no earlier one. |
| `SchemaCleaner.FindNonNull` | src/ap_invoice/services/llm/providers.py:287-291 | The search loop stops at that option. |
| `SchemaCleaner.LastSegmentIsLast` | src/ap_invoice/services/llm/providers.py:270 | A reference is looked up by what follows its last slash. |
| `Chunking.ChunkText` | src/ap_invoice/services/rag.py:76-99 | One pass over the paragraphs yields the greedy packing with overlapping windows for oversized paragraphs; the final fallback never yields a chunk. |
| `Chunking.Pack` | src/ap_invoice/services/rag.py:80-98 | The pending group is always the longest run of paragraphs that fits. |
| `Chunking.HardSplit` | src/ap_invoice/services/rag.py:92-95 | The inner loop terminates and yields one window per stride. |
| `Chunking.PackIsLongest` | src/ap_invoice/services/rag.py:83-89 | The packed group is the longest prefix of the remaining paragraphs that fits. |
| `ChunkingTheorems.ChunkSizes` | src/ap_invoice/services/rag.py:76-99 | No chunk is empty or longer than the size. |
| `ChunkingTheorems.GreedyIsFewest` | src/ap_invoice/services/rag.py:82-98 | If every paragraph fits, no order-preserving partition into groups that fit has fewer groups than there are chunks. |
| `ChunkingTheorems.GreedyIsPartition` | src/ap_invoice/services/rag.py:82-98 | The chunks themselves are such a partition, so the bound is attained. |
| `ChunkingTheorems.WindowsStitch` | src/ap_invoice/services/rag.py:92-95 | The first stride of each window, one after the other, gives back the paragraph. |
| `ChunkingTheorems.WindowAt` | src/ap_invoice/services/rag.py:91-95 | The k-th window starts k strides in, and they go on until one would start past the end. |
| `ChunkingTheorems.WindowsOverlap` | src/ap_invoice/services/rag.py:91-95 | Neighbouring windows share the overlap: the rest of a window after `size - overlap` characters begins the next one. |
| `ChunkingTheorems.ParagraphsAreRestored` | src/ap_invoice/services/rag.py:76-99 | For a non-negative overlap every paragraph can be read back from the chunks, whole and in order. |
| `ChunkingTheorems.ChunksExistUnlessBlank` | src/ap_invoice/services/rag.py:79-99 | A text has chunks exactly when it is not blank. |
| `Paragraphs.ParagraphsAreParagraphs` | src/ap_invoice/services/rag.py:79 | Every paragraph is non-empty, stripped and free of blank lines. |
| `Paragraphs.ParagraphsKeepInk` | src/ap_invoice/services/rag.py:79 | Splitting loses no character but white space, and yields nothing exactly for a blank text. |
| `Paragraphs.ParagraphsOfJoin` | src/ap_invoice/services/rag.py:79 | Splitting undoes joining: a chunk packed from paragraphs splits into exactly those paragraphs. |
| `Embedding.EmbedTokens` | src/ap_invoice/services/rag.py:39-53 | Counting tokens in place and dividing by the norm yields the normalised bag-of-words vector. |
| `Embedding.EmbeddingIgnoresOrder` | src/ap_invoice/services/rag.py:46-49 | The vector depends only on the multiset of tokens. |
| `Embedding.EmbeddingIsZero` | src/ap_invoice/services/rag.py:46-53 | It is zero exactly when there are no tokens. |
| `Embedding.CauchySchwarz` | src/ap_invoice/services/rag.py:60-68 | The squared dot product is at most the product of the squared norms, in every dimension. |
| `Embedding.CosineIsBounded` | src/ap_invoice/services/rag.py:60-68 | Cosine similarity lies between -1 and 1 for all vectors, also of different lengths. |
| `Embedding.CosineWithSelf` | src/ap_invoice/services/rag.py:60-68 | A non-zero vector has similarity 1 with itself. |
| `Embedding.CosineOfEmbeddings` | src/ap_invoice/services/rag.py:39-68 | The similarity of two embeddings lies between 0 and 1. |
| `Similarity.CosineByCoordinates` | src/ap_invoice/services/rag.py:60-68 | Similarity times both norms is the sum of the products of the coordinates; without two non-zero vectors of one length it is 0. |
| `Similarity.NormByCoordinates` | src/ap_invoice/services/rag.py:64-65 | The norm is the root of the sum of the squares of the coordinates. |
| `Similarity.CosineIsOneExactly` | src/ap_invoice/services/rag.py:60-68 | The similarity of two non-zero vectors is 1 exactly if they point the same way. |
| `Similarity.SimilarExactly` | src/ap_invoice/services/rag.py:39-68 | Two texts have a positive similarity exactly if they have a bucket in common, and similarity 0 otherwise. |
| `Similarity.CoordinateOccurs` | src/ap_invoice/services/rag.py:46-53 | A coordinate of an embedding is positive exactly if some token hashes to it. |
| `Similarity.RelevantFirst` | src/ap_invoice/services/rag.py:138-141 | No chunk without a bucket in common with the query is returned before, or instead of, one that has one. |
| `Similarity.TokensAreDivided` | src/ap_invoice/services/rag.py:27-36 | A character that is no letter or digit divides a text into parts that are tokenised on their own. |
| `Similarity.RunIsToken` | src/ap_invoice/services/rag.py:27-36 | A part of letters and digits is one token, in lower case. |
| `Similarity.TokensIgnoreCase` | src/ap_invoice/services/rag.py:35-36 | Texts that differ in case alone have the same tokens. |
| `Embedding.RetrieveReturnsPicked` | src/ap_invoice/services/rag.py:138-141 | Retrieval returns distinct row positions with their own similarity, as many as there are up to k. |
| `Embedding.PickedAreBest` | src/ap_invoice/services/rag.py:138-141 | No row left out or returned later beats a returned one; ties stay in row order. |
| `Ranking.OrderIsOrdered` | src/ap_invoice/services/rag.py:140 | The sort establishes descending order and keeps equal keys in their original order. |
| `Ranking.OrderLeavesOutLater` | src/ap_invoice/services/rag.py:140-141 | Whatever is not among the first positions of the sorted order comes after them. |
| `Ranking.SortedElements` | src/ap_invoice/services/vendor_normaliser.py:40-41 | The sorted list has the same elements, in descending order of rank. |
| `Accounts.Session.RegisterUser` | src/ap_invoice/services/accounts.py:106-142 | Registers, or re-registers an unverified address, consuming every earlier code; refuses a verified address. |
| `Accounts.Session.ResendOtp` | src/ap_invoice/services/accounts.py:180-188 | Issues a fresh code to an unverified account and does nothing otherwise. |
| `Accounts.Session.IssueOtp` | src/ap_invoice/services/accounts.py:80-103 | Consumes every unconsumed code of the user and adds one fresh code. |
| `Accounts.Session.VerifyEmailOtp` | src/ap_invoice/services/accounts.py:145-177 | Accepts a matching guess at the newest pending code within time and cap; counts a wrong guess in the committed table, outside the request session. |
| `Accounts.Database.CountFailedAttempt` | src/ap_invoice/services/accounts.py:166-171 | The side transaction adds one to that code and to nothing else. |
| `Accounts.Serve` | src/ap_invoice/api/main.py:89-112 | What a request leaves behind: its session is committed below status 400 and rolled back otherwise. |
| `Accounts.LatestPending` | src/ap_invoice/services/accounts.py:67-77 | The most recently created unconsumed code of the user, if there is any. |
| `AccountSafety.ReachableIsConsistent` | src/ap_invoice/services/accounts.py:80-188 | After any serial run an unverified self-registered user has exactly one unconsumed code, a verified user has none, and attempts stay within the cap. |
| `AccountSafety.VerifiedAccountIsFinal` | src/ap_invoice/services/accounts.py:120-151 | No run of requests changes a verified account, neither its verification nor its password. |
| `AccountSafety.RejectedVerifyOnlyCounts` | src/ap_invoice/services/accounts.py:145-172 | A rejected verification leaves the database unchanged but for at most one attempt, counted only for a wrong guess at the newest pending code. |
| `AccountSafety.VerifiedOnlyByItsCode` | src/ap_invoice/services/accounts.py:145-177 | An account becomes verified only by a timely matching guess at its newest code within the cap, or by seeding. |
| `AccountSafety.VerifyAnswersOkExactly` | src/ap_invoice/services/accounts.py:145-177 | A verification is answered with success exactly for an address verified before, whatever the guess, or for a timely matching guess at the newest pending code within the cap. |
| `AccountSafety.ExhaustedCodeIsDead` | src/ap_invoice/services/accounts.py:156-159 | Once the attempts are used up no run of guesses changes anything. |
| `AccountSafety.WrongGuessesExhaust` | src/ap_invoice/services/accounts.py:157-173 | So many wrong guesses in time as the cap allows use a code up. |
| `AccountSafety.ResendThenVerifySucceeds` | src/ap_invoice/services/accounts.py:145-188 | From any state, a resend followed by the new code in time verifies the account. |
| `Registration.RegistrationReplaces` | src/ap_invoice/services/accounts.py:106-142 | A registration is accepted exactly for an unverified address; it leaves an unverified account with just the submitted password and the submitted code as its only live one for its whole lifetime, and touches nobody else. |
| `Registration.ResendReplacesCode` | src/ap_invoice/services/accounts.py:180-188 | A resend gives an unverified account a new code as its only live one; nothing else changes. |
| `Registration.OthersAreUntouched` | src/ap_invoice/services/accounts.py:52-188 | No request touches the user or the codes of another address. |
| `Registration.AddressesAreFolded` | src/ap_invoice/services/accounts.py:52-53 | Addresses that differ in case or surrounding white space are one account. |
| `Registration.PasswordIsLastSet` | src/ap_invoice/services/accounts.py:120-127 | Over every run the password of an account is the one of its last accepted registration or seeding. |
| `Registration.VerifiedByCodeHasLastPassword` | src/ap_invoice/services/accounts.py:106-177 | An account that becomes verified by code has the password of the last accepted registration. |
| `OtpRace.AttemptsStayCapped` | src/ap_invoice/services/accounts.py:153-172 | With at most n verify calls in flight, interleaved in any way between the cap check and the increment, attempts never exceed the cap plus n - 1. |
| `OtpRace.NoGuessIsLost` | src/ap_invoice/services/accounts.py:160-172 | Attempts counted plus wrong guesses still in flight always equal the wrong guesses made: no update is lost. |
| `OtpRace.OverlapReachesBound` | src/ap_invoice/services/accounts.py:158-171 | The bound is tight: n overlapping calls can reach the cap plus n - 1. |
| `OtpRace.VerifiedStays` | src/ap_invoice/services/accounts.py:145-177 | No interleaving undoes a verification. |
| `OtpRace.ConsumedStays` | src/ap_invoice/services/accounts.py:155-177 | A code that is used up stays so in every interleaving, and no later call takes a guess at it. |
| `OtpRace.AcceptConsumes` | src/ap_invoice/services/accounts.py:175-176 | Accepting a guess verifies the account and uses the code up. |
| `PolicyIndex.PolicyStore.EmbedDocument` | src/ap_invoice/services/rag.py:107-125 | Replaces the rows of one document by the indexed chunks of its text and leaves all other rows alone. |
| `PolicyIndex.PolicyStore.ClearVendorPolicy` | src/ap_invoice/api/routes/policies.py:37-42 | Removes exactly the rules and documents of the vendor, and the chunk rows of those documents. |
| `PolicyIndex.PolicyStore.UploadDocument` | src/ap_invoice/api/routes/policies.py:51-89 | Stores, indexes and compiles a document, after clearing the vendor when it replaces; refuses unknown vendors and flagged texts. |
| `PolicyIndex.PolicyStore.DeleteDocument` | src/ap_invoice/api/routes/policies.py:116-126 | Removes the document of this vendor and organization, its chunk rows and the rules compiled from it. |
| `PolicyIndexSafety.ReachableIsConsistent` | src/ap_invoice/api/routes/policies.py:37-126 | After any run of uploads, replacing uploads, deletes and re-embeddings, chunk rows are exactly the indexed chunks of the current documents, and every rule points to a current document. |
| `PolicyIndexSafety.RespondKeepsConsistency` | src/ap_invoice/api/routes/policies.py:37-126 | Each request keeps that consistency. |
| `PolicyIndexSafety.EmbeddingKeepsConsistency` | src/ap_invoice/services/rag.py:107-125 | Indexing a document repairs its rows, whatever they were. |
| `PolicyIndexSafety.ReplaceLeavesOneDocument` | src/ap_invoice/api/routes/policies.py:67-79 | After a replacing upload the new document is the only one of its vendor, and its rules the only rules. |
| `PolicyIndexSafety.RowsExactlyWithDocuments` | src/ap_invoice/services/rag.py:107-137 | A vendor has chunk rows exactly when it has documents. |
| `PolicyIndexFrames.UploadStoresDocument` | src/ap_invoice/api/routes/policies.py:69-84 | An accepted upload stores the stripped text under a new id, with exactly its chunk rows and its rules. |
| `PolicyIndexFrames.UploadKeepsOthers` | src/ap_invoice/api/routes/policies.py:67-78 | It adds that id to the documents of the vendor and keeps every earlier document with its rows and rules, unless it replaces them. |
| `PolicyIndexFrames.DeleteRemovesOne` | src/ap_invoice/api/routes/policies.py:118-128 | A deletion removes exactly the named document, with its rows and rules. |
| `PolicyIndexFrames.DeletingVendorRemovesOne` | src/ap_invoice/api/routes/vendors.py:161-164 | Deleting a vendor removes it with its documents and nothing of other vendors. |
| `PolicyIndexFrames.ClearingKeepsOthers` | src/ap_invoice/api/routes/policies.py:36-41 | Clearing the policy of a vendor keeps the documents of every other vendor with their rows and rules. |
| `PolicyIndexFrames.ReembedKeepsDocument` | src/ap_invoice/services/rag.py:107-125 | Indexing a document again changes nothing of a consistent store. |
| `PolicyIndexFrames.ReembedRestoresRows` | src/ap_invoice/services/rag.py:107-125 | Indexing again restores the rows of a document, whatever they were, and leaves those of the others. |
| `PolicyIndexFrames.VendorsKeepOwners` | src/ap_invoice/api/routes/vendors.py:86-164 | A new vendor belongs to the organization that creates it; only a deletion removes a vendor, and nothing hands one over. |
| `PolicyIndexFrames.AcceptedExactly` | src/ap_invoice/api/routes/policies.py:28-66 | When uploads and deletions are accepted; a refused one changes nothing. |
| `PolicyIndexFrames.OtherVendorsAreUntouched` | src/ap_invoice/api/routes/policies.py:53-128 | No request changes the documents, rows or rules of a vendor it does not name. |
| `PolicyIndexFrames.OrganizationsAreIsolated` | src/ap_invoice/api/routes/policies.py:29-33 | No request of one organization changes a document of another, its rows or its rules. |
| `PolicyIndexSafety.NoPolicyHoldExactlyWithoutDocuments` | src/ap_invoice/services/llm_decision.py:160-176 | For an invoice that is no duplicate the no-policy hold fires exactly when its vendor has no document. |
| `Parsing.NormalizationIsIdempotent` | src/ap_invoice/services/_parsing.py:51-58 | A normalised vendor name is its own normal form. |
| `NormalForms.NumberOfChar` | src/ap_invoice/services/_parsing.py:61-63 | In an invoice number capitals and digits are kept, small letters become capitals, and anything else goes. |
| `NormalForms.NumberOfConcat` | src/ap_invoice/services/_parsing.py:61-63 | A number is normalised character by character, in order. |
| `NormalForms.NumberIgnoresCase` | src/ap_invoice/services/_parsing.py:61-63 | Numbers that differ in case alone are the same. |
| `NormalForms.NumberIgnoresSeparators` | src/ap_invoice/services/_parsing.py:61-63 | Characters other than letters and digits make no difference, wherever they stand. |
| `NormalForms.NumberIsPlain` | src/ap_invoice/services/_parsing.py:61-63 | The result has capitals and digits only, and is its own normal form. |
| `NormalForms.PlainNumberIsKept` | src/ap_invoice/services/_parsing.py:61-63 | Numbers of capitals and digits are kept, so no two of them are confused. |
| `NormalForms.NameIgnoresCase` | src/ap_invoice/services/_parsing.py:51-58 | Vendor names that differ in case alone have one normal form. |
| `NormalForms.LowerCharMaps` | src/ap_invoice/services/_parsing.py:53 | Folding takes each capital to the small letter at its place in the alphabet and back. |
| `NormalForms.PunctuationIsBlank` | src/ap_invoice/services/_parsing.py:53-54 | A punctuation mark separates words as a blank does. |
| `NormalForms.SuffixIsIgnored` | src/ap_invoice/services/_parsing.py:57-58 | A legal suffix in any case makes no difference unless nothing else is left. |
| `NormalForms.CleanNameIsKept` | src/ap_invoice/services/_parsing.py:57-58 | Words that are no suffixes distinguish vendors, and so does their order. |
| `Parsing.NormalizationIgnoresPadding` | src/ap_invoice/services/_parsing.py:51-58 | White space around a name does not change its normal form. |
| `Parsing.NormalFormByWords` | src/ap_invoice/services/_parsing.py:51-58 | The normal form is the words of the folded name without suffixes, joined by single spaces; if only suffixes occur, all words. |
| `Parsing.TextIsJoinedWords` | src/ap_invoice/services/_parsing.py:53-54 | Collapsing white space and stripping leaves the words joined by single spaces. |
| `Parsing.SplitOfJoin` | src/ap_invoice/services/_parsing.py:57-58 | Splitting at spaces undoes joining by spaces. |
| `Parsing.WordsIgnorePadding` | src/ap_invoice/services/_parsing.py:54 | Surrounding white space adds no word. |
| `VendorNormaliser.BestMatchForEntry` | src/ap_invoice/services/vendor_normaliser.py:69-98 | The loop returns the first name with the same normal form, exact for the canonical name and alias otherwise, and else the rounded best fuzzy score. |
| `VendorNormaliser.NormaliseVendor` | src/ap_invoice/services/vendor_normaliser.py:26-66 | Collecting, sorting and cutting the candidates yields the match, the recognition and the suggestions of the ranking. |
| `VendorNormaliser.RecognisedExactly` | src/ap_invoice/services/vendor_normaliser.py:32-46 | A name is recognised exactly when some vendor is known by it or scores at least the threshold, whatever the order of the vendors. |
| `VendorNormaliser.ExactWins` | src/ap_invoice/services/vendor_normaliser.py:39-41 | An equal canonical name beats every alias and fuzzy match. |
| `VendorNormaliser.SuggestionsAreRunnersUp` | src/ap_invoice/services/vendor_normaliser.py:57 | The suggestions are the best candidates besides the match, in order, at most as many as allowed. |
| `VendorNormaliser.EntryMatchKinds` | src/ap_invoice/services/vendor_normaliser.py:69-98 | Which kind of match an entry yields, in terms of its normal forms and best score. |
| `VendorNormaliser.BestScoreIsHighest` | src/ap_invoice/services/vendor_normaliser.py:74-88 | The score of a fuzzy match is the highest over the canonical name and all aliases. |
| `VendorNormaliser.UnrecognisedNeverCollides` | src/ap_invoice/services/vendor_normaliser.py:44-52 | No name of any known vendor has the normal form of an unrecognised name; no canonical name equals its stripped form. |
| `VendorNormaliser.OnboardedIsFound` | src/ap_invoice/services/orchestrator.py:181-195 | After onboarding under the stripped raw name, every name of the same normal form resolves to the new vendor by exact match, whatever the row order and the fuzzy scores. |
| `VendorNormaliser.MatchIsVendor` | src/ap_invoice/services/vendor_normaliser.py:42-46 | A match is a vendor that the name resolves to: known by it or scoring at least the threshold. |
| `VendorNormaliser.AliasBeatsFuzzy` | src/ap_invoice/services/vendor_normaliser.py:39-46 | Without an equal canonical name, a known alias is matched with the full score, whatever the fuzzy scores. |
| `VendorNormaliser.FuzzyMatchIsBest` | src/ap_invoice/services/vendor_normaliser.py:39-46 | Without an equal name or alias the match has the highest rounded score of all vendors, at least the threshold. |
| `VendorNormaliser.HundredthsIsNear` | src/ap_invoice/services/vendor_normaliser.py:96 | Reported scores are the fuzzy ones to the nearest hundredth. |
| `VendorNormaliser.RecognitionGrows` | src/ap_invoice/services/vendor_normaliser.py:32-46 | Adding vendors never makes a recognised name unrecognised. |
| `DuplicateDetector.EvaluateCandidate` | src/ap_invoice/services/duplicate_detector.py:51-123 | The branches yield the exact, near or weak match with its confidence and reasons; the same-number bonus inside the near branch is never taken. |
| `DuplicateDetector.KeepRecent` | src/ap_invoice/services/duplicate_detector.py:130-138 | Keeps the candidates without a date or not before the cutoff, and raises exactly when the cutoff leaves the calendar. |
| `DuplicateDetector.DetectDuplicates` | src/ap_invoice/services/duplicate_detector.py:126-166 | The whole report: matches sorted by confidence, flags, highest confidence and notes. |
| `DuplicateDetector.DuplicateExactly` | src/ap_invoice/services/duplicate_detector.py:149-150 | An exact duplicate is reported exactly when some candidate in the window has the same normalised number and a similar enough vendor. |
| `DuplicateDetector.ReportBySet` | src/ap_invoice/services/duplicate_detector.py:141-151 | Flags and highest confidence are determined by the set of candidates. |
| `DuplicateDetector.DetectionIgnoresOrder` | src/ap_invoice/services/duplicate_detector.py:126-166 | Candidate order and repetition change neither the flags nor the highest confidence. |
| `DuplicateDetector.DetectionIsMonotone` | src/ap_invoice/services/duplicate_detector.py:126-166 | Flags and highest confidence never decrease when candidates are added or the lookback or tolerance grows. |
| `DuplicateDetector.ConfidenceBounds` | src/ap_invoice/services/duplicate_detector.py:51-123 | Every confidence lies in [0, 1], and an exact match has at least 0.9. |
| `DuplicateMeasures.WithinToleranceExactly` | src/ap_invoice/services/duplicate_detector.py:34-48 | Amounts agree exactly if both are known and differ by at most the tolerance, in percent of the larger one. |
| `DuplicateMeasures.ClosenessIsRelative` | src/ap_invoice/services/duplicate_detector.py:38-48 | Closeness is 1 for equal amounts and falls to 0 with the difference relative to the larger one. |
| `DuplicateMeasures.ExactConfidenceIs` | src/ap_invoice/services/duplicate_detector.py:87 | The confidence of an exact match runs from 0.9 to 1 with the closeness, to four places. |
| `DuplicateMeasures.NearConfidenceIs` | src/ap_invoice/services/duplicate_detector.py:92-108 | The confidence of a near match: 0.5, up to 0.3 for the vendor and 0.2 for the amount, 0.05 for the day, at most 1. |
| `Rounding.HalvesAreTied` | src/ap_invoice/services/duplicate_detector.py:87-119 | Halves go to the even neighbour where `round` rounds, and away from zero where decimals are quantised. |
| `DuplicateMeasures.ReasonsExactly` | src/ap_invoice/services/duplicate_detector.py:76-121 | Each reason is given exactly when it holds. |
| `DuplicateMeasures.MatchesExactlyWhen` | src/ap_invoice/services/duplicate_detector.py:76-123 | A candidate matches exactly on the number, or on vendor and amount. |
| `DuplicateMeasures.NearExactly` | src/ap_invoice/services/duplicate_detector.py:90-147 | A near duplicate is reported exactly when some candidate in the window has the number alone, or vendor and amount but not the number. |
| `DuplicateMeasures.SimilarityOfNames` | src/ap_invoice/services/duplicate_detector.py:25-31 | Names with one normal form are entirely similar; a missing name is like no other. |
| `DuplicateMeasures.NotesExactly` | src/ap_invoice/services/duplicate_detector.py:130-159 | The notes give the number of candidates before the window and the verdict of the flags. |
| `DuplicateMeasures.WindowExactly` | src/ap_invoice/services/duplicate_detector.py:131-134 | Only invoices dated more than the lookback before this one are ignored. |
| `DuplicateRanking.NearMatchLeads` | src/ap_invoice/services/duplicate_detector.py:76-107 | A concrete input on which an exact duplicate is found and yet the report begins with a near match, whatever the fuzzy scores. |
| `DuplicateRanking.ExactLeadsExactly` | src/ap_invoice/services/duplicate_detector.py:141-151 | An exact match has the highest confidence of the report exactly if some exact candidate in the window is at least as confident as every near match by vendor and amount in the window. |
| `DuplicateRanking.EvaluationConfidence` | src/ap_invoice/services/duplicate_detector.py:76-121 | The confidence of each kind of match: by the amounts, by vendor, amount and date, or 0.6. |
| `DuplicateDetector.ToleranceIsSymmetric` | src/ap_invoice/services/duplicate_detector.py:34-48 | Comparing amounts is symmetric. |
| `DuplicateDetector.ToleranceIsScaleInvariant` | src/ap_invoice/services/duplicate_detector.py:34-48 | Multiplying both amounts by a positive factor changes nothing. |
| `Calendar.OrdinalCountsDays` | src/ap_invoice/services/payment_terms.py:83-88 | The day after a date has the next ordinal, across months, leap days and years. |
| `Calendar.FromOrdinal` | src/ap_invoice/services/payment_terms.py:75-94 | Every positive ordinal is the ordinal of a valid date. |
| `Calendar.OrdinalIsBijective` | src/ap_invoice/services/payment_terms.py:39-40 | Dates and positive ordinals correspond one to one. |
| `Calendar.OrdinalsFollowDates` | src/ap_invoice/services/payment_terms.py:39-40 | Later dates have larger ordinals. |
| `Calendar.RangeByOrdinal` | src/ap_invoice/services/payment_terms.py:75-94 | The representable dates are exactly those up to day 3652059. |
| `Calendar.AddDays` | src/ap_invoice/services/payment_terms.py:75-94 | Adding days moves the ordinal by as many, and raises exactly past the last representable day. |
| `TermsParser.ParserUndoesPrinter` | src/ap_invoice/services/payment_terms.py:22-94 | The printed forms `p/d Net n`, `Net n`, `Net n EOM`, `Due on Receipt` and `COD` are recognised as the right type with exactly the printed numbers, for all naturals and decimal percents. |
| `TermsParser.DueNeedsR` | src/ap_invoice/services/payment_terms.py:28-30 | Due-on-receipt terms cannot match a text without an r; with the next three, why the branch order lets the printed forms through. |
| `TermsParser.CodNeedsC` | src/ap_invoice/services/payment_terms.py:31 | Cash-on-delivery terms cannot match a text without a c. |
| `TermsParser.DiscountNeedsSlash` | src/ap_invoice/services/payment_terms.py:22-26 | Discount terms cannot match a text without a slash. |
| `TermsParser.EomNeedsM` | src/ap_invoice/services/payment_terms.py:32 | End-of-month terms cannot match a text without an m. |
| `TermsParser.DiscountAtStart` | src/ap_invoice/services/payment_terms.py:22-26 | The discount expression reads percent, discount days and net days from the printed form. |
| `TermsParser.FractionIsDecimal` | src/ap_invoice/services/payment_terms.py:65 | The digits behind the point of a percentage count as the decimal fraction they write. |
| `TermsSpellings.DueSpellings` | src/ap_invoice/services/payment_terms.py:28-30 | Every spelling of due on receipt is recognised wherever it stands, before all other terms. |
| `TermsSpellings.CodSpellings` | src/ap_invoice/services/payment_terms.py:31 | Every spelling of cash on delivery is recognised wherever it stands as a word, unless the text is due on receipt. |
| `TermsSpellings.NetSpellings` | src/ap_invoice/services/payment_terms.py:27 | `net` or `n`, any white space or none, and the days are read as net terms. |
| `TermsSpellings.EomSpellings` | src/ap_invoice/services/payment_terms.py:32 | `eom` with or without days and `net`, and the phrase, are read as end-of-month terms. |
| `TermsSpellings.DiscountSpellings` | src/ap_invoice/services/payment_terms.py:23-26 | Discount terms are read with any white space, with or without a comma, and with `net` or `n`. |
| `TermsSpellings.TermsAreWords` | src/ap_invoice/services/payment_terms.py:27-32 | Inside a longer word net days, the letters of cash on delivery and `eom` are no terms. |
| `TermsSpellings.DaysEndWord` | src/ap_invoice/services/payment_terms.py:27 | Net days that run on into a word are none. |
| `TermsSpellings.LettersEndWord` | src/ap_invoice/services/payment_terms.py:31-32 | The letters of cash on delivery and `eom` at the beginning of a longer word are no terms. |
| `TermsSpellings.ParseIgnoresCase` | src/ap_invoice/services/payment_terms.py:23-32 | Case and surrounding white space make no difference. |
| `PaymentTerms.ApplyTerms` | src/ap_invoice/services/payment_terms.py:45-94 | The branch taken and the fields it sets are those of the recognised terms. |
| `PaymentTerms.EndOfInvoiceMonth` | src/ap_invoice/services/payment_terms.py:83-87 | The day before the first of the next month, or 31 December, is the last day of the month. |
| `PaymentTerms.CalculatePaymentTerms` | src/ap_invoice/services/payment_terms.py:43-137 | The step-by-step calculation yields the result fields, milestones and notes of the planned dates and amounts. |
| `PaymentTerms.FillDays` | src/ap_invoice/services/payment_terms.py:107-135 | Remaining days, milestones and closing notes. |
| `PaymentTerms.DueDateIsNetDaysLater` | src/ap_invoice/services/payment_terms.py:52-94 | The due date is the invoice date plus the net days, which are never negative; the discount deadline is the discount days later. |
| `PaymentTerms.EndOfMonthIsTrue` | src/ap_invoice/services/payment_terms.py:77-89 | End-of-month terms fall due the extra days after the true last day of the invoice month, in leap years and December too. |
| `PaymentTerms.RaisesExactlyBeyondCalendar` | src/ap_invoice/services/payment_terms.py:75-94 | The calculation raises exactly when a day asked for lies beyond the year 9999. |
| `PaymentTerms.OverdueIsNoted` | src/ap_invoice/services/payment_terms.py:108-133 | The past-due and closed-discount notes appear exactly when the dates have passed, and the last milestone is the due date with the full amount. |
| `PaymentTerms.DiscountConservesAmount` | src/ap_invoice/services/payment_terms.py:102-105 | Discount and remainder add up to the amount exactly when the amount is in whole cents, and never differ from it by more than half a cent. |
| `PaymentTerms.DiscountStaysWithinAmount` | src/ap_invoice/services/payment_terms.py:102-105 | A discount of at most 100 percent lies between nothing and the whole amount in cents. |
| `PaymentTerms.ReportedDiscountConserves` | src/ap_invoice/services/payment_terms.py:102-105 | The reported discount and remainder are such a split of the requested amount. |
| `PaymentTerms.DiscountIsShare` | src/ap_invoice/services/payment_terms.py:102-105 | The discount is the stated percentage of the amount to the nearest cent, and the remainder what is left. |
| `PaymentTerms.DiscountIsReportedExactly` | src/ap_invoice/services/payment_terms.py:102-105 | A discount is reported exactly for discount terms on a positive amount, and is that percentage of it. |
| `PaymentTerms.TermsAreDue` | src/ap_invoice/services/payment_terms.py:45-100 | Type, net days, due date, discount and discount deadline for each kind of terms. |
| `PaymentTerms.UnreadTermsAreNoted` | src/ap_invoice/services/payment_terms.py:54-100 | Terms that cannot be read fix nothing and are noted, and so is cash on delivery. |
| `PaymentTerms.DaysRemain` | src/ap_invoice/services/payment_terms.py:107-133 | Remaining days, notes and the first milestone count from the day asked about, or the invoice date. |
| `PaymentTerms.NotOverdueAtFirst` | src/ap_invoice/services/payment_terms.py:42-133 | An invoice is never overdue on its own date, nor its discount closed. |
| `Completeness.CheckCompleteness` | src/ap_invoice/services/completeness.py:28-70 | Present and missing fields partition the required list with multiplicity and in order; score and action follow from their number. |
| `Completeness.SelectionsPartition` | src/ap_invoice/services/completeness.py:35-38 | Every required field is listed once as present or as missing. |
| `Completeness.SelectedAreRequired` | src/ap_invoice/services/completeness.py:35-38 | A field is listed as present exactly if it is required and there, and as missing exactly if it is required and not. |
| `Completeness.PresentExactly` | src/ap_invoice/services/completeness.py:19-27 | A field is there unless it is absent, blank text or an empty collection. |
| `Completeness.ScoreIsPercentage` | src/ap_invoice/services/completeness.py:40-46 | The score is the percentage of fields that are there to the nearest hundredth, and 100 if none is asked for. |
| `Completeness.FullScoreExactly` | src/ap_invoice/services/completeness.py:44-46 | The rounded score is 100.00 exactly when at most one field in 20000 is missing. |
| `Completeness.FullScoreMeansComplete` | src/ap_invoice/services/completeness.py:41-46 | With fewer than 20000 mandatory fields it is 100.00 exactly when nothing is missing. |
| `Completeness.OneMissingOfTwentyThousand` | src/ap_invoice/services/completeness.py:44-46 | The bound is tight: one missing field scores 100.00 exactly from 20000 fields on. |
| `Completeness.DefaultActionExactly` | src/ap_invoice/services/completeness.py:48-53 | Under the default thresholds an invoice is processed exactly when at most one field in 20000 is missing, and returned exactly when less than 59.995 percent are there. |
| `Completeness.FillingInHelps` | src/ap_invoice/services/completeness.py:31-53 | Filling in fields never lowers the score and never worsens the action. |
| `VendorPolicies.PolicyTable.CreatePolicyVersion` | src/ap_invoice/api/routes/vendors.py:51-75 | The next version is added and alone made active; the uniqueness of versions is never violated. |
| `VendorPolicies.PolicyTable.OnboardDefault` | src/ap_invoice/services/orchestrator.py:187-192 | A default version 1 is added unless the vendor has one. |
| `VendorPolicies.NewVersionKeepsVersions` | src/ap_invoice/api/routes/vendors.py:55-72 | Versions stay 1 to n with version n alone active; of older policies only the flag changes, of other vendors nothing. |
| `VendorPolicies.DefaultKeepsVersions` | src/ap_invoice/services/orchestrator.py:187-192 | The default policy of an onboarded vendor is its version 1. |
| `VendorPolicies.NewVersionIsActive` | src/ap_invoice/api/routes/vendors.py:35-75 | The new version carries the rules submitted and is the one looked up; other vendors keep theirs. |
| `VendorPolicies.DefaultIsActive` | src/ap_invoice/services/orchestrator.py:187-192 | The default policy, with its default settings, is the one looked up for an onboarded vendor. |
| `VendorPolicies.VersionsAreConsecutive` | src/ap_invoice/api/routes/vendors.py:51-75 | The versions of a vendor are distinct, run from 1 to their number, and the highest alone is active. |
| `VendorPolicies.ActivePolicyIsLatest` | src/ap_invoice/api/routes/vendors.py:35-43 | The single-row lookup never meets two rows, and finds the latest version. |
| `Pipeline.Session.ResolveVendor` | src/ap_invoice/services/orchestrator.py:139-206 | Vendor matching and auto-onboarding change the invoice, the vendors and the policies as specified. |
| `Pipeline.Session.Examine` | src/ap_invoice/services/orchestrator.py:209-303 | Policy lookup, duplicate check and payment terms, with the events they record. |
| `Pipeline.Session.ProcessInvoice` | src/ap_invoice/services/orchestrator.py:122-390 | The whole processing leaves exactly the specified invoice, vendors, policies and events, or raises exactly when the specification does. |
| `Pipeline.Session.TransitionStatus` | src/ap_invoice/services/workflow.py:32-64 | An allowed target sets the status and appends one event; any other changes nothing. |
| `Pipeline.Serve` | src/ap_invoice/api/main.py:89-112 | A processing or status request is committed if it succeeds and leaves the database as it was otherwise. |
| `Pipeline.HeadersDecideFindings` | src/ap_invoice/services/orchestrator.py:209-303 | What the duplicate check and the terms find does not depend on the vendor just assigned. |
| `PipelineSafety.ReachableIsConsistent` | src/ap_invoice/services/orchestrator.py:122-390 | After any serial run references exist, canonical names are unique, trails replay and policies are versioned. |
| `PipelineSafety.RespondKeepsConsistency` | src/ap_invoice/services/orchestrator.py:122-390 | Each request keeps that consistency. |
| `PipelineSafety.ProcessingEvents` | src/ap_invoice/services/orchestrator.py:348-375 | The events of one processing lead the replayed status to that of its decision. |
| `PipelineTheorems.AuditReplays` | src/ap_invoice/services/orchestrator.py:348-375 | For every invoice in every reachable state the recorded status changes chain from the creation status to the current one, the recommended action is the last recorded decision, and NORMALIZED, VALIDATED and PAID are unreachable. |
| `PipelineTheorems.NoMatchingApprovals` | src/ap_invoice/services/orchestrator.py:235-266 | In every run, whatever the model answers, however often invoices are reprocessed and however vendors are edited, no two invoices that match each other exactly under the names they were judged by, each inside the lookback the other was judged with and inside the candidate limit, are both approved. |
| `PipelineTheorems.NamesakesAreNotBothApproved` | src/ap_invoice/services/orchestrator.py:235-266 | Of two invoices with the same number and vendor names of one normal form, judged under names of that form and inside each other's lookback, at most one is approved. |
| `DuplicateCoverage.CoveredTwinsAreNotBothApproved` | src/ap_invoice/services/orchestrator.py:249-258 | If every vendor that a name resolves to has a canonical name which the duplicate check takes for it, no two invoices of that name with the same number, inside each other's lookback, are ever both approved, in any run without vendor edits. |
| `DuplicateCoverage.UncoveredTwinsAreApproved` | src/ap_invoice/services/orchestrator.py:249-258 | And if some vendor that the name resolves to has an unlike canonical name, a run approves two such invoices, whatever vendors are created after. |
| `DuplicateCoverage.InvoicesAreNamedByVendors` | src/ap_invoice/services/orchestrator.py:152-206 | In every run without vendor edits, an invoice was judged under its own name or the canonical name of a vendor that its name resolves to. |
| `PipelineTheorems.ApprovedMatchesNone` | src/ap_invoice/services/llm_decision.py:148-158 | An approved invoice matches no recent invoice exactly at the time it is approved. |
| `PipelineTheorems.RecentIsCandidate` | src/ap_invoice/services/orchestrator.py:235-246 | Every other invoice among the most recent ones is a candidate. |
| `PipelineTheorems.ApprovalIsEarned` | src/ap_invoice/services/llm_decision.py:148-176 | Approval needs a vendor, retrieved policy text and the verdict of the model. |
| `PipelineOutcomes.ProcessingSetsStatus` | src/ap_invoice/services/orchestrator.py:348-375 | After a processing the status is APPROVED, HELD, FLAGGED or REJECTED exactly for its decision, which is recorded and recommended. |
| `PipelineOutcomes.OutcomeExactly` | src/ap_invoice/services/llm_decision.py:148-190 | An exact duplicate ends rejected whatever the model says; no vendor, no policy text or an unreadable answer ends held; otherwise the decision of the model stands. |
| `PipelineOutcomes.MatchIsRejected` | src/ap_invoice/services/llm_decision.py:148-158 | An invoice that exactly matches a recent one inside its lookback is rejected. |
| `PipelineOutcomes.StatusIsAccountedFor` | src/ap_invoice/services/orchestrator.py:348-351 | Over every run the status of an invoice was set by the last request that touched it: by hand to just this status, or by a processing with the decision it stands for. |
| `PipelineOutcomes.ApprovalIsAccountedFor` | src/ap_invoice/services/orchestrator.py:348-351 | Over every run an APPROVED invoice has AUTO_APPROVE as its last decision or was approved by hand and not touched since. |
| `PipelineOutcomes.MatchingInvoicesAreNotBothApproved` | src/ap_invoice/services/orchestrator.py:235-266 | Over every run two invoices that match each other exactly do not both have the status APPROVED, unless one was last approved by hand. |
| `PipelineOutcomes.TransitionSetsTarget` | src/ap_invoice/services/workflow.py:32-64 | A status request sets exactly the status asked for, if it is one of the four, records the change and changes nothing else. |
| `PipelineOutcomes.CreationAndDeletion` | src/ap_invoice/api/routes/invoices.py:81-220 | A creation adds the invoice as given in its initial status; a deletion removes the one named. |
| `PipelineOutcomes.OthersAreUntouched` | src/ap_invoice/services/orchestrator.py:122-390 | No request changes an invoice it does not name. |
| `PipelineOutcomes.ProcessingKeepsHeader` | src/ap_invoice/services/orchestrator.py:281-293 | Processing keeps the header, and the due date of an invoice that has one. |
| `PipelineOutcomes.VendorOfProcessed` | src/ap_invoice/services/orchestrator.py:139-206 | An invoice is processed for the vendor its name is recognised as, the one onboarded for it, or the one it had. |
| `PipelineOutcomes.DueDateFollowsTerms` | src/ap_invoice/services/orchestrator.py:280-293 | An invoice without a due date gets the one of its own terms, if it has any, and otherwise of those of the policy. |
| `PipelineOutcomes.NewPolicyGoverns` | src/ap_invoice/api/routes/vendors.py:35-75 | A policy governs its vendor as soon as it is created, and no other vendor. |
| `PipelineOutcomes.PolicyStands` | src/ap_invoice/services/orchestrator.py:112-119 | It stays in force until the next one for that vendor: no other request changes the lookup. |
| `PipelineOutcomes.EditChangesNamedVendor` | src/ap_invoice/api/routes/vendors.py:145-157 | An edit changes the named fields of the named vendor alone, and never to the name of another one. |
| `PipelineOutcomes.CreationAddsVendor` | src/ap_invoice/api/routes/vendors.py:86-108 | A creation adds the vendor under its stripped name with its policy, exactly if that name is free and not blank. |
| `PipelineChecks.CandidatesAreMostRecent` | src/ap_invoice/services/orchestrator.py:235-246 | The duplicate candidates are exactly the most recent other invoices, up to the limit. |
| `PipelineChecks.ChecksExactly` | src/ap_invoice/services/orchestrator.py:235-266 | The duplicate check finds an exact duplicate exactly if a compared invoice has the same number and vendor inside the lookback of the governing policy, and a near one exactly if one has the same number under another vendor, or another number from the vendor on an amount within its tolerance. |
| `PipelineChecks.CheckIsRecorded` | src/ap_invoice/services/orchestrator.py:267-278 | What it finds is recorded in the trail, under the policy that governs. |
| `PipelineChecks.CandidatesAreInvoices` | src/ap_invoice/services/orchestrator.py:235-262 | Every candidate is another stored invoice under its raw name, and there are at most as many as the limit. |
| `ApprovalPolicy.ApprovedHadDocument` | src/ap_invoice/services/llm_decision.py:160-176 | Over every combined run of pipeline requests and changes of the policy tables, an approved invoice was judged for a vendor that had a policy document then. |
| `ApprovalPolicy.RetrievedMeansDocument` | src/ap_invoice/services/rag.py:128-141 | Retrieving anything for a vendor means that the vendor has a document. |
| `PipelineTheorems.ProcessingFailsExactly` | src/ap_invoice/services/orchestrator.py:122-390 | Processing fails, changing nothing, exactly when the lookback window or a day the terms ask for lies outside the calendar, a negative amount meets terms to calculate, or the model is needed and unavailable. |
| `PipelineTheorems.TermsFailExactly` | src/ap_invoice/services/orchestrator.py:281-289 | When the terms are what fails: they are to be calculated, and the amount is negative or a day lies beyond the year 9999. |
| `PipelineTheorems.NegativeAmountIsNeverProcessed` | src/ap_invoice/services/orchestrator.py:281-289 | A dated invoice with a negative amount and terms of its own fails on every attempt. |
| `PipelineTheorems.OnboardingNeverCollides` | src/ap_invoice/services/orchestrator.py:181-195 | Auto-onboarding never meets an existing canonical name. |
| `PipelineTheorems.OnboardingMakesKnown` | src/ap_invoice/services/orchestrator.py:181-195 | A vendor is onboarded only if no known name or alias has its normal form, and its name is recognised from then on. |
| `PipelineTheorems.OnboardsExactlyUnrecognised` | src/ap_invoice/services/orchestrator.py:181-195 | With auto-onboarding, processing adds a vendor exactly if the name is not recognised. |
| `PipelineTheorems.OnboardingHappensOnce` | src/ap_invoice/services/orchestrator.py:181-195 | After a successful auto-onboarding run of a name, no later processing of any name with the same normal form adds a vendor, whatever happens in between short of an edit of a vendor. |
| `PipelineTheorems.LookupNeverFails` | src/ap_invoice/services/orchestrator.py:112-119 | In consistent states the active-policy lookup never meets two rows. |
| `PipelineTheorems.TablesOnlyGrow` | src/ap_invoice/api/routes/vendors.py:51-75 | Requests only add vendors and policies, edit at most the vendor they name, and change nothing of older policies but the flag. |
| `PipelineTheorems.PoliciesAreVersioned` | src/ap_invoice/api/routes/vendors.py:35-75 | In every reachable state the versions of each vendor are 1 to n, version n alone is active, and the lookup finds it. |

## Left out

- Model calls, prompts, vision extraction, PDF rasterising, mail delivery, the MCP transport and HTTP routing are foreign
  input and output; the verdict of the model, its failure and its unparseable answers are inputs.
- Password hashing, token signing and random generation are library cryptography.
- Unicode case folding and white space, binary floating-point error, Decimal's 28-digit context and Python's limit on the
  length of digit strings in `int` are not modelled.
- Concurrent transactions other than overlapping verify calls are not modelled: the code takes no locks, and the run
  properties are stated for serial requests.
- Idempotency keys, line items, fingerprints and the completeness score inside the pipeline are left out; none of them
  feeds a decision.
- The pipeline is that of one organization, and vendor rows are not deleted in it; `PolicyIndex` has several organizations
  and deletes vendors. Vendor edits that set a field to null are left out.
- `unevaluatedItems` and `unevaluatedProperties` depend on the annotations of neighbouring keywords, not on accepted values
  alone; with subschemas inside them a schema is outside the fragment.
- Structured policy rules matter only as rows tied to documents; their approval and the pattern lists that screen and
  compile policy text are not part of this model.
- Analytics, aging buckets, pagination, search filters, API keys and image budgets would only add easy members.
- VendorNormaliser.NormaliseVendor: the identifier of a vendor entry is always given, as the pipeline gives it; note texts
  are left out.
- Chunking.ChunkText: stated for sizes of at least 1, as the property is; the settings put no bound on the chunk size, and a
  smaller one yields empty windows.
- Embedding.EmbedTokens: stated for dimensions of at least 1; the settings put no bound on it, and 0 raises a division error.
- Embedding.RetrieveReturnsPicked: k is a natural number; the settings put no bound on it, and a negative one drops the last
  rows.
- Pipeline.Serve: covers the processing and status requests; the remaining routes insert or delete single rows and
  appear in the specification of requests only.
- PaymentTerms.CalculatePaymentTerms: result texts are enumerated notes, and the amount is any real.
