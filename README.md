# dre-edu-app core, modelled in Dafny

The DRE tutoring site is a Next.js application. It has students, teachers and
administrators, a catalogue of problem materials, orders, consultation
requests, a hall of fame, and an ELO-style skill model that recommends
materials. Maintenance scripts migrate and audit the material collection.
A small Python probe picks a logo's dominant colour.

This project models the deterministic core of that system as Dafny
modules, one per source file, over a few shared ones:

- **Shared modules.**
  - `Optional`: options.
  - `JsCore`: JavaScript values and numbers, with NaN and the infinities explicit, truthiness, `Number()`, `parseInt`, `Math.round` and `Math.trunc`.
  - `JsText`: `trim`, ASCII `toLowerCase`, split and join, digits.
  - `Assoc`: records kept in insertion order.
  - `Sorting`: a stable sort by key.
  - `Paging`: page and window arithmetic.
  - `Bulk`: the buffer of database operations the scripts flush in batches.
  - `ScriptArgs`: command-line parsing shared by the scripts.
  - `MaterialCatalog`: the category and curriculum tables.
- **Material classification and display.** `MaterialDisplay`, `TestHint`, `DifficultyStyle`.
- **Skill model and recommendations.** `UserSkillModel`, `Recommendation`.
- **Migration and audit scripts.** `MigrateLegacy`, `MigrateSourceCategory`, `MigrateCurriculum`, `SeedHallOfFame`, `AuditMigrated`.
- **File handling.** `GeneratePreview` (image signatures, preview choice), `PageCount` (page counts and their cache), `ExtractColor`.
- **Sanitisers.** `ApiHelpers`, `SecurityInput`, `SecurityStorage`, `AppUrl`, `CommunityUpgrade`.
- **Route handlers**, each as a function from the request and the stored records to an error or the new records:
  - sign-up: `Signup`, `SignupForm`, `CivilDate`;
  - profile: `Profile`;
  - broadcast: `Broadcast`;
  - the Kakao chatbot webhook: `KakaoWebhook`;
  - orders: `Orders`, `CommunityOrders`;
  - materials: `Materials`, `Upload`;
  - community products: `CommunityProducts`;
  - consultations: `Consult`, `CoachingForm`, `MobilePhone`;
  - the hall of fame: `HallOfFameAdmin`;
  - e-mail verification: `VerifyEmail`;
  - password reset: `PasswordReset`, `UserAccount`.

Where the source changes state step by step, the model does too:

- Objects whose fields the handlers change become classes. Examples are a user, a consultation, a skill document, the page-count cache, the sample buckets and the bulk writer.
- Loops become methods with loop invariants. Each method is proved against a function that specifies it.
- Pure helpers become functions.

Lemmas relate each operation to the following:

- its inverse (round trips);
- the invariant it preserves (ratings in range, counters non-negative, buffers below their batch size);
- an independent definition (for example, the greedy selection against the loop that computes it).

Several source files keep local copies of the same helper. Examples are `normalizeText`, `getArgValue`, `parseDbNameFromUri` and `flushBulk`. Each copy is modelled once, in the shared module, and its rows cite the copy whose lines they model.

## Model

| member | source | states |
|---|---|---|
| AppUrl.TrimTrailingSlash | lib/appUrl.ts:3-5 | the result is a prefix of the URL that does not end in '/', and every character removed is a '/' |
| AppUrl.FirstHeaderValue | lib/appUrl.ts:7-10 | a missing header gives ''; the result holds no comma and has no surrounding whitespace |
| AppUrl.GetAppBaseUrl | lib/appUrl.ts:16-40 | a usable configured URL is returned without trailing slashes; otherwise `proto://host` from the request headers; otherwise the request origin without trailing slashes |
| AppUrl.ProductionIgnoresLocalConfig | lib/appUrl.ts:21-25 | in production a configured localhost address gives the same base URL as no configuration at all |
| AppUrl.InvalidConfigFallsBack | lib/appUrl.ts:19-28 | a configured URL that does not parse is treated as if none were configured |
| AppUrl.ForwardedHostWins | lib/appUrl.ts:31-36 | `x-forwarded-host` wins over `host`, and a public host without a protocol header gets https |
| AppUrl.BuildAppUrl | lib/appUrl.ts:42-44 | a root-relative path is resolved against the origin of `base + "/"` |
| AppUrl.RedirectStaysOnOrigin | lib/appUrl.ts:42-44 | a root-relative redirect path lands on `proto://host` followed by the path |
| ApiHelpers.NormalizeText | lib/api-helpers.ts:1-2 | '' for every value that is not a string; otherwise the text without leading or trailing whitespace |
| ApiHelpers.NormalizeKey | lib/api-helpers.ts:4-5 | the normalised text holds no upper-case letter |
| ApiHelpers.NormalizeTextIdempotent | lib/api-helpers.ts:1-2 | normalising normalised text changes nothing |
| ApiHelpers.NormalizeKeyIdempotent | lib/api-helpers.ts:4-5 | a normalised key is its own key |
| ApiHelpers.NormalizeKeyPlain | lib/api-helpers.ts:4-5 | a text with no surrounding whitespace and no capital letter is its own key |
| ApiHelpers.DuplicateKeyErrorIff | lib/api-helpers.ts:7-13 | an error is a duplicate-key error exactly when it is an object whose `code` is 11000 or whose `message` contains "E11000" |
| ApiHelpers.ParseSortOrder | lib/api-helpers.ts:15-20 | `undefined` gives 0; otherwise a value is accepted exactly when `Number` makes it finite, and the result is that number truncated toward zero |
| ApiHelpers.ParseSortOrderOfDigits | lib/api-helpers.ts:15-20 | a sort order written as decimal digits reads back as its value below the overflow bound, and is refused from it on, where `Number` gives Infinity |
| ApiHelpers.ParseAmount | lib/api-helpers.ts:22-28 | an accepted amount is an integer in [0, 1e9] equal to `Number(value)`, and every such integral number is accepted |
| ApiHelpers.ParseAmountAcceptsRange | lib/api-helpers.ts:22-28 | every amount in range is accepted both as a number and as its decimal digits |
| SecurityInput.NormalizeText | lib/security/input.ts:3-6 | '' for non-strings; otherwise a prefix of the trimmed text of at most `max(0, maxLength)` characters, and all of it when it fits |
| SecurityInput.UnescapeEscapeRegex | lib/security/input.ts:8-10 | escaping loses nothing: removing the inserted backslashes gives the text back |
| SecurityInput.EscapeRegexConcat | lib/security/input.ts:8-10 | escaping works character by character: the escape of a concatenation is the concatenation of the escapes |
| SecurityInput.EscapeRegexChar | lib/security/input.ts:8-10 | a character is prefixed with a backslash exactly when it is a regular-expression metacharacter |
| SecurityInput.EscapeRegexPlain | lib/security/input.ts:8-10 | a text without metacharacters is left unchanged |
| SecurityInput.PickAllowedObject | lib/security/input.ts:12-36 | the loop keeps exactly the allowed entries and drops exactly the other keys, in source order, and warns exactly when something was dropped |
| SecurityInput.AllowedEntriesExact | lib/security/input.ts:21-27 | an entry is kept, with its value unchanged, exactly when it is in the source and its key is allowed |
| SecurityInput.DroppedKeysExact | lib/security/input.ts:21-24 | a key is dropped exactly when it is a source key that is not allowed |
| SecurityInput.PickPartitions | lib/security/input.ts:21-27 | every source entry is either kept or dropped, never both |
| SecurityInput.DroppedWarning | lib/security/input.ts:29-33 | a warning is logged exactly when some key was dropped |
| SecurityInput.ParsePositiveInt | lib/security/input.ts:38-48 | an accepted value lies in [min, max]; a number is accepted exactly when it is a finite integer in range |
| SecurityInput.ParsePositiveIntDigits | lib/security/input.ts:38-48 | an integer in range written as decimal digits is accepted as itself |
| SecurityStorage.SafeNameIff | lib/security/storage.ts:3-11 | a name is safe exactly when it matches the file-name pattern and does not contain ".." |
| SecurityStorage.SafeNameIsPlainSegment | lib/security/storage.ts:5-11 | a safe name holds no '/' or '\', does not start with '.', and is neither "." nor ".." |
| SecurityStorage.ExtnameOfName | lib/security/storage.ts:13-16 | the extension of `stem.e` is `.e`, and it is allowed exactly when the lower-cased `e` is in the list |
| SecurityStorage.NoDotNoExtension | lib/security/storage.ts:13-16 | a name without a dot has no allowed extension |
| SecurityStorage.ResolveStoragePath | lib/security/storage.ts:18-25 | a path is returned exactly for a safe name under a base other than the root, and it is `base/name`, strictly under the base |
| SecurityStorage.ParentEscapesBase | lib/security/storage.ts:18-25 | resolving ".." leaves the base directory, which is why it must be refused |
| SecurityStorage.RootBaseRefusesAll | lib/security/storage.ts:18-25 | with the root directory as base every name is refused, because the prefix test asks for "//" |
| DifficultyStyle.ToneOf | lib/material-difficulty-style.ts:37-39 | a string names a tone exactly when it is emerald, blue, violet, orange or red |
| DifficultyStyle.ToneNameRoundTrip | lib/material-difficulty-style.ts:1-39 | every tone's name is recognised as that tone |
| DifficultyStyle.GetDifficultyBadgeClass | lib/material-difficulty-style.ts:41-49 | a known tone gets its own entry in the variant's row of the table; a missing or unknown tone gets the variant's blue entry |
| DifficultyStyle.MaterialListDiffStyle | lib/material-difficulty-style.ts:51 | the list style of a tone is what the badge function gives for that tone with the strong-outline variant |
| DifficultyStyle.EmptyToneIsBlue | lib/material-difficulty-style.ts:45-48 | an empty tone falls back to blue, like a missing one |
| CommunityUpgrade.FiniteOrZero | lib/community-upgrade.ts:55-56 | a finite number is kept and every other value becomes 0 |
| CommunityUpgrade.ProductInfoShape | lib/community-upgrade.ts:50-60 | the read product has trimmed texts, a trimmed lower-case key, is active unless stored as false, has finite amount and order (0 otherwise) and time 0 for a missing date |
| CommunityUpgrade.ReadBackStored | lib/community-upgrade.ts:50-60 | a product that is already normalised reads back unchanged from its stored form |
| CommunityUpgrade.StoredTextReadBack | lib/community-upgrade.ts:47 | trimming text that is already trimmed changes nothing |
| CommunityUpgrade.FindOne | lib/community-upgrade.ts:111-115 | the found product is stored and matches the key (and is active unless inactive ones are included); no stored product matches when none is found |
| CommunityUpgrade.GetProductByKey | lib/community-upgrade.ts:106-108 | a key that is empty after trimming finds nothing |
| CommunityUpgrade.ProductByKeyFound | lib/community-upgrade.ts:106-117 | a found product has the normalised key and is active unless inactive ones are asked for; nothing found with a non-empty key means no stored product matches |
| CommunityUpgrade.KeySpellingIrrelevant | lib/community-upgrade.ts:107 | keys that differ only in surrounding spaces or letter case find the same product |
| CommunityUpgrade.SeedIfEmpty | lib/community-upgrade.ts:70-88 | a non-empty catalogue is not seeded; an empty one gets the two default products in order; a failed insert is swallowed exactly when it is a duplicate-key error and thrown otherwise |
| CommunityUpgrade.PremiumKeyNormal | lib/community-upgrade.ts:30 | the premium default key is already normalised |
| CommunityUpgrade.RegularKeyNormal | lib/community-upgrade.ts:38 | the regular default key is already normalised |
| CommunityUpgrade.SeededProductsFound | lib/community-upgrade.ts:28-117 | after seeding an empty catalogue each default product is found by its key, active, with its default amount |
| CommunityOrders.NormalizePhone | app/api/community/orders/route.ts:12 | the phone is made only of digits and hyphens and is no longer than the trimmed text |
| CommunityOrders.PhoneCharsKeeps | app/api/community/orders/route.ts:12 | keeping digits and hyphens distributes over concatenation |
| CommunityOrders.PhoneCharsOfPhone | app/api/community/orders/route.ts:12 | a text made only of digits and hyphens is kept whole |
| CommunityOrders.NormalizePhoneIdempotent | app/api/community/orders/route.ts:12 | normalising a normalised phone changes nothing |
| CommunityOrders.PhoneTrimsToItself | app/api/community/orders/route.ts:12 | a text of digits and hyphens has nothing to trim |
| CommunityOrders.FindProduct | app/api/community/orders/route.ts:27-31 | a product found by the first lookup is the one used |
| CommunityOrders.CheckApplicant | app/api/community/orders/route.ts:39-47 | the applicant passes exactly when the name has 1 to 30 characters, the phone 8 to 20 and the nickname 1 to 40 |
| CommunityOrders.PlaceOrder | app/api/community/orders/route.ts:39-61 | an order is placed exactly when the applicant fields pass the checks |
| CommunityOrders.PlacedOrder | app/api/community/orders/route.ts:51-72 | a placed order is pending in both senses, copies the product's key, name and amount, is named by the short label and holds checked applicant fields |
| CommunityOrders.FoundIsActive | app/api/community/orders/route.ts:22-34 | the product an order is placed for is active and has the key as given, trimmed and lower-cased |
| CommunityOrders.DefaultsOrderable | app/api/community/orders/route.ts:27-34 | in an empty catalogue each default product can be ordered by its key, at its default amount |
| CommunityProducts.DTOAgreesWithInfo | app/api/m/admin/community-products/route.ts:53-63 | the admin listing reads a product exactly as the shared product reader does: finite amount and order or 0, active unless stored as false |
| CommunityProducts.List | app/api/m/admin/community-products/route.ts:65-77 | only an administrator gets the list, which holds every stored product, in the stored order, each read as a listing entry |
| CommunityProducts.ValidKeyIsNormal | app/api/m/admin/community-products/route.ts:21-99 | a key the pattern accepts is already trimmed and lower-case |
| CommunityProducts.KeyExamples | app/api/m/admin/community-products/route.ts:99 | "premium" and "vip-2026_a" are accepted; a one-character key, a key starting with a hyphen and an upper-case key are refused |
| CommunityProducts.ReadBody | app/api/m/admin/community-products/route.ts:92-97 | the read fields are normalised, and the product is active unless the body says false |
| CommunityProducts.Validate | app/api/m/admin/community-products/route.ts:99-116 | the fields pass exactly when the key matches the pattern, the name has 1 to 120 characters, the label 1 to 40, and amount and order parsed |
| CommunityProducts.CreatedIff | app/api/m/admin/community-products/route.ts:79-134 | a product is created exactly when an administrator sends JSON whose fields pass and whose key is free; a valid body with a taken key is refused as a duplicate |
| CommunityProducts.CreatedProduct | app/api/m/admin/community-products/route.ts:118-130 | the answered product carries the sent key, name, label, amount (0 to 10^9), order and active flag; the store grows by exactly that product |
| CommunityProducts.CreatedShape | app/api/m/admin/community-products/route.ts:118-130 | a created product is the new document built from the fields, appended to the store |
| CommunityProducts.DocReadBack | app/api/m/admin/community-products/route.ts:120-129 | reading back the stored new document gives the fields that were sent |
| CommunityProducts.CreatedFoundByKey | app/api/m/admin/community-products/route.ts:118-130 | after creation the product is found by its key |
| CommunityProducts.FoundAfterAppend | lib/community-upgrade.ts:106-117 | a product appended under a free key is what the key lookup finds |
| CommunityProducts.FindOneAppended | lib/community-upgrade.ts:114 | the first match in a store extended by a document with a free key is that document |
| Consult.TypeOf | app/api/consult/route.ts:31-33 | a text names a consultation type only when it is that type's name, and an unknown text names none |
| Consult.StatusOf | app/api/consult/route.ts:79-81 | a text names a status only when it is that status's name, and an unknown text names none |
| Consult.TrimmedOrEmpty | app/api/consult/route.ts:18-19 | a missing field reads as empty text, a present one trimmed |
| Consult.ApplyAcceptsIff | app/api/consult/route.ts:18-48 | an application is stored exactly when the name is not blank, the phone's digits form a mobile number and the type is known; it holds the trimmed name, the digits of the phone and the type |
| Consult.ApplyErrorOrder | app/api/consult/route.ts:22-33 | a missing field is reported before a bad phone, and a bad phone before an unknown type |
| Consult.ListFilterApplies | app/api/consult/route.ts:67-81 | an unknown type or status parameter filters nothing out; a known one keeps exactly the applications of that type or status |
| Consult.ListPageOf | app/api/consult/route.ts:70-99 | corrected paging (Paging.Page: a page that does not parse is 1, where the code as written gives NaN): the page is at least 1, and the page count is the least number of 30-item pages that holds every match |
| Consult.TrimmedText | app/api/consult/route.ts:18-19 | a falsy field reads as empty text and text as itself trimmed; a truthy field that is not text throws |
| Consult.TrimmedAll | app/api/consult/route.ts:41-47 | the detail fields read exactly when each of them reads, each as its own trimmed text |
| Consult.DetailsOf | app/api/consult/route.ts:41-47 | the seven details read exactly when every detail field reads, each stored trimmed |
| Consult.TypeOfName | app/api/consult/route.ts:31-33 | every consultation type's name is accepted as that type |
| Consult.ScreenAcceptsIff | app/api/consult/route.ts:22-48 | the read fields are accepted exactly when name and phone are non-empty, the phone's digits form a mobile number, the type is a known name and the details read; the stored consultation holds them with the phone as digits |
| Consult.ApplyBodyFaults | app/api/consult/route.ts:11-19 | a body that is not JSON answers 400, and nothing else does; a `null` body, or a truthy name or phone that is not text, throws and answers 500 |
| Consult.List | app/api/consult/route.ts:59-100 | corrected paging (Paging.Page: a page that does not parse is 1, where the code as written gives NaN): anyone but an administrator gets 403; a listing's page is at least 1 and its page count covers the total |
| Consult.ListPageReadsHex | app/api/consult/route.ts:70 | the radix-less page "0x10" is page 16 |
| MobilePhone.MobileNumberIsDigits | app/api/consult/route.ts:27 | a mobile number is 10 or 11 digits and keeping its digits changes nothing |
| MobilePhone.MobileNumberExamples | app/api/consult/route.ts:27 | 01012345678 and 0161234567 are mobile numbers; a Seoul landline and a 9-digit number are not |
| CoachingForm.PhoneDigits | components/TeacherCoachingDetail.tsx:284 | the phone keeps at most the first 11 digits of what was typed, and nothing but digits |
| CoachingForm.Layout | components/TeacherCoachingDetail.tsx:285 | up to 3 digits are shown as they are, up to 7 as 3-rest, more as 3-4-rest |
| CoachingForm.DigitsOfHyphen | components/TeacherCoachingDetail.tsx:285 | a hyphen holds no digit |
| CoachingForm.LayoutDigits | components/TeacherCoachingDetail.tsx:285 | the laid-out phone is made of digits and hyphens, and its digits are exactly the digits laid out |
| CoachingForm.FormatPhoneDigits | components/TeacherCoachingDetail.tsx:284-285 | the formatted phone is digits and hyphens, and its digits are the first 11 digits typed |
| CoachingForm.FormatPhoneIdempotent | components/TeacherCoachingDetail.tsx:284-286 | formatting a formatted phone changes nothing |
| CoachingForm.FormatElevenDigits | components/TeacherCoachingDetail.tsx:285 | eleven digits are shown as 13 characters with hyphens at positions 3 and 8 |
| CoachingForm.Check | components/TeacherCoachingDetail.tsx:81-89 | a blank name is reported first; otherwise the phone is reported exactly when its digits are not a mobile number; the form passes exactly when neither holds |
| CoachingForm.PostedFormAccepted | components/TeacherCoachingDetail.tsx:85-96 | a form that passes the page's checks is accepted by the consultation route as a teacher application, with the phone's digits |
| CoachingForm.TrimDigitsOf | app/api/consult/route.ts:19-26 | trimming a phone does not change its digits |
| CoachingForm.TrimStartDigits | app/api/consult/route.ts:19-26 | removing leading whitespace does not change the digits |
| CoachingForm.TrimEndDigits | app/api/consult/route.ts:19-26 | removing trailing whitespace does not change the digits |
| CoachingForm.CoachingFormState.constructor | components/TeacherCoachingDetail.tsx:76-78 | the form starts empty, not submitting, with no result and no alert |
| CoachingForm.CoachingFormState.TypePhone | components/TeacherCoachingDetail.tsx:283-287 | typing in the phone field stores the formatted phone and changes nothing else |
| CoachingForm.CoachingFormState.HandleSubmit | components/TeacherCoachingDetail.tsx:80-106 | the alert is the form's check; the form is posted exactly when it passes, as a teacher application; an accepted post clears the form and shows success, a refused one keeps it and shows the error, and submitting ends false |
| CoachingForm.HyphenThen | components/TeacherCoachingDetail.tsx:285 | joining digit groups with a hyphen keeps the digits in order and the text digits and hyphens |
| CoachingForm.PostedBodyRead | components/TeacherCoachingDetail.tsx:85-96 | the posted form's details always read, and the server sees its trimmed name and phone and the teacher type |
| Broadcast.Clean | app/api/broadcast/route.ts:29-32 | a cleaned recipient's phone holds only digits |
| Broadcast.CleanAll | app/api/broadcast/route.ts:28-32 | every entry is cleaned, one recipient per entry, in order |
| Broadcast.KeepValid | app/api/broadcast/route.ts:33 | only recipients with a phone and a name are kept, each one of the cleaned ones |
| Broadcast.CleanRecipients | app/api/broadcast/route.ts:25-33 | every recipient kept has a non-empty all-digit phone and a name |
| Broadcast.KeepValidKeeps | app/api/broadcast/route.ts:33 | a recipient with a phone and a name is kept |
| Broadcast.CleanKeepsValid | app/api/broadcast/route.ts:25-33 | an entry whose cleaned form has a phone and a name is among the recipients |
| Broadcast.FirstPerPhone | app/api/broadcast/route.ts:49-55 | de-duplication keeps every phone that occurs and never adds recipients |
| Broadcast.FirstIndex | app/api/broadcast/route.ts:52 | the first position at which a phone occurs |
| Broadcast.FirstPerPhoneIsFirst | app/api/broadcast/route.ts:49-55 | the de-duplicated list has distinct phones, holds for each phone the recipient that came first with it, and keeps the order of first occurrence |
| Broadcast.FirstIndexPrefix | app/api/broadcast/route.ts:51-55 | the first occurrence of a phone in a prefix is its first occurrence in the whole list |
| Broadcast.Dedupe | app/api/broadcast/route.ts:49-55 | the loop's set is the set of all phones and its list keeps the first recipient per phone |
| Broadcast.MemberPhones | app/api/broadcast/route.ts:59-63 | the consenting student and teacher members' phones that were asked for, and every such member's phone |
| Broadcast.ApplicationPhones | app/api/broadcast/route.ts:64-68 | the phones of applications that are not cancelled and agreed to marketing, among those asked for, and every such phone |
| Broadcast.DigitPhonesStep | app/api/broadcast/route.ts:72-79 | one more stored phone adds its digits, when it has any, to the allowed phones |
| Broadcast.AddDigitPhones | app/api/broadcast/route.ts:72-75 | the loop adds exactly the non-empty digit forms of the stored phones |
| Broadcast.AllowedPhones | app/api/broadcast/route.ts:71-79 | the allowed phones are the digit forms of the consenting members' and applications' phones |
| Broadcast.AllowedIff | app/api/broadcast/route.ts:58-79 | a requested phone is allowed exactly when a consenting member or application holds exactly that phone |
| Broadcast.MemberPhoneSource | app/api/broadcast/route.ts:59-63 | each listed member phone belongs to a consenting member |
| Broadcast.ApplicationPhoneSource | app/api/broadcast/route.ts:64-68 | each listed application phone belongs to a consenting application |
| Broadcast.Post | app/api/broadcast/route.ts:11-90 | 403 exactly without an administrator's session, then 400 exactly for a body that is not JSON, a throw for a null body; otherwise the answer for the body's phones and message, as Send states |
| Broadcast.Send | app/api/broadcast/route.ts:25-90 | a null entry or a truthy message that is not text throws; otherwise no recipients, then an empty message, then one over 1000 characters are refused in that order; otherwise the message goes to the de-duplicated recipients exactly when every phone is allowed, and is blocked, naming phones that are not allowed, when one is not |
| Broadcast.Blocked | app/api/broadcast/route.ts:81-82 | the blocked phones are requested phones that are not allowed, and there are none exactly when every requested phone is allowed |
| Broadcast.SentOnlyToConsenting | app/api/broadcast/route.ts:58-90 | every phone a message is sent to belongs to a consenting member or a consenting application |
| Bulk.BulkWriter.Flush | scripts/migrateMaterialSourceCategory.ts:120-130 | the pending operations are written after those already written and the buffer is emptied; an empty buffer costs no write |
| Bulk.BulkWriter.Push | scripts/migrateMaterialSourceCategory.ts:214-226 | the operation joins those pushed so far; the buffer is written exactly when it reaches the batch size |
| Bulk.BulkWriter.Close | scripts/migrateMaterialSourceCategory.ts:229-233 | at the end every pushed operation has been written, in order, in as many writes as full or partial batches they fill |
| CivilDate.DaysInMonth | app/api/m/auth/signup/route.ts:18 | a month has 28 to 31 days, and 29 exactly for February of a leap year |
| CivilDate.FullYear | app/api/m/auth/signup/route.ts:18 | `Date.UTC` reads a year from 0 to 99 as 1900 to 1999 and keeps any other year |
| CivilDate.Roll | app/api/m/auth/signup/route.ts:18 | an out-of-range day rolls over into a real date, and a day inside its month stays where it is |
| CivilDate.MakeDate | app/api/m/auth/signup/route.ts:18 | the date built from a year, a month and a day always exists |
| CivilDate.MakeDateReadBack | app/api/m/auth/signup/route.ts:18-26 | the built date reads back as the given parts exactly when those parts name a real date and the year is not in 0..99 |
| CivilDate.ParseDate | app/api/m/auth/signup/route.ts:12-29 | a birth date is accepted exactly when the text has the YYYY-MM-DD shape, names a real date and its year is 100 or later; the result is that date |
| CivilDate.AgeCountsCompletedYears | app/api/m/auth/signup/route.ts:32-42 | the age counts completed years: that birthday has been reached by today and the next one has not |
| CivilDate.AgeUnique | app/api/m/auth/signup/route.ts:32-42 | no other number of years has that property |
| CivilDate.AnniversaryMonotone | app/api/m/auth/signup/route.ts:32-42 | when a later birthday has been reached, so has every earlier one |
| CivilDate.AgeNegativeIff | app/api/m/auth/signup/route.ts:32-42 | the age is negative exactly when the birth date is after today |
| Signup.EmailShapedFacts | app/api/m/auth/signup/route.ts:90 | an address the pattern accepts has no whitespace and exactly one '@', with text on both sides |
| Signup.ValidationOrder | app/api/m/auth/signup/route.ts:79-130 | a refusal names the first failing check in the handler's order, every earlier check holding; a request passes exactly when every check holds, with the parsed birth date and its age |
| Signup.Signup | app/api/m/auth/signup/route.ts:79-217 | corrected password check (Signup.Validate: a numeric password is refused as short, where the code as written accepts it): 409 exactly for a taken address, 500 exactly when the mail fails in production, 400 for a failed check; an account is created only for a free address, and a failed mail still creates one exactly outside production |
| Signup.CreatedUser | app/api/m/auth/signup/route.ts:141-163 | a created user passed every check, is a student or a teacher, is pending exactly as a teacher and approved exactly as a student, is unverified, has the parsed birth date, is marked under 14 exactly by age, has a guardian consent with both guardian fields exactly then, and has the lower-cased, trimmed address |
| Signup.CreatedEmailNormal | app/api/m/auth/signup/route.ts:68-91 | a created user's address is non-empty, has no whitespace, no upper-case ASCII letter and one '@' |
| Signup.NormalEmail | app/api/m/auth/signup/route.ts:68-91 | the lower-cased, trimmed address that the pattern accepts has no whitespace, no upper-case ASCII letter and one '@' |
| Signup.MinorNeedsGuardian | app/api/m/auth/signup/route.ts:112-126 | a signup under 14 without both guardian fields or without the guardian's agreement is refused |
| Signup.Normalize | app/api/m/auth/signup/route.ts:68-76 | the body reads exactly when it is not `null` and every text field is falsy or text |
| Signup.NormalizeReads | app/api/m/auth/signup/route.ts:68-76 | the password is read as given (or empty), the e-mail lower-cased and trimmed, the guardian consent only when it is `true` |
| Signup.EarlyRefusal | app/api/m/auth/signup/route.ts:79-98 | the checks before the password length come before it in the order of refusals |
| Signup.LateChecks | app/api/m/auth/signup/route.ts:103-130 | the checks after the password length come after it in the order of refusals |
| Signup.Validate | app/api/m/auth/signup/route.ts:79-130 | an accepted request has a text password of at least six characters and a text role |
| Signup.NumericPasswordAsWritten | app/api/m/auth/signup/route.ts:70-99 | as written, a numeric password 12 passes every check and is stored as "12"; corrected, it is refused as short |
| Signup.ValidateAgreesOnText | app/api/m/auth/signup/route.ts:79-130 | for a text password the checks as written and the corrected checks agree |
| Signup.CreatedFrom | app/api/m/auth/signup/route.ts:79-163 | a created user comes from a readable body that passed every check, built from its fields |
| Signup.BuiltUser | app/api/m/auth/signup/route.ts:132-163 | the stored user: a student or a pending teacher, unverified, born on the parsed date, a minor exactly when under 14 and then with the guardian's consent, with the given password and e-mail |
| Signup.MinorRefused | app/api/m/auth/signup/route.ts:112-126 | a child under 14 without guardian name, contact and consent is refused |
| SignupForm.AgeFromBirthDate | app/m/SignupForm.tsx:479-504 | the page computes an age only for a well-formed date whose age is between 0 and 120, and then it is the server's age |
| SignupForm.Pad2 | app/m/SignupForm.tsx:474-475 | the padded number has at least two characters, all digits |
| SignupForm.Pad2Value | app/m/SignupForm.tsx:474-475 | a number below 100 is padded to exactly two digits that read back as the number |
| SignupForm.FourDigitYear | app/m/SignupForm.tsx:473-476 | a year from 1000 to 9999 is written as four digits that read back as the year |
| SignupForm.TodayInputRoundTrip | app/m/SignupForm.tsx:471-504 | today's date as the page writes it parses back as today, and gives age 0 |
| SignupForm.FirstFailureOrder | app/m/SignupForm.tsx:41-79 | the page reports the first failing check in its order, every earlier one holding; it posts exactly when every check holds |
| SignupForm.PostedGuardianFields | app/m/SignupForm.tsx:64-95 | a posted form sends guardian fields only under 14, and then sends both guardian texts and the agreement |
| SignupForm.GuardianFieldsOf | app/m/SignupForm.tsx:93-95 | over 14 the guardian fields are sent empty and unagreed; under 14 they are sent trimmed, with the box as ticked |
| SignupForm.PostedFormPassesServerChecks | app/m/SignupForm.tsx:41-96 | the server reads back the name and the address the page sent, and the consent, birth-date, age and guardian checks the server runs all hold for a form the page posts |
| SignupForm.RequestIsNormal | app/m/SignupForm.tsx:85-96 | every text the page sends is already in the form the server normalises it to |
| SignupForm.NameAndEmailNormal | app/m/SignupForm.tsx:41-42 | the sent name is trimmed and the sent address is trimmed and lower-case |
| SignupForm.GuardianTextsNormal | app/m/SignupForm.tsx:93-94 | the sent guardian texts are trimmed |
| SignupForm.NormalizedRequest | app/api/m/auth/signup/route.ts:67-76 | the server's normalisation of an already normal request keeps every field, with student as the default role |
| SignupForm.EmailRenormalised | app/m/SignupForm.tsx:42 | lower-casing and trimming the page's address again changes nothing |
| SignupForm.ShapedDateUntrimmed | app/api/m/auth/signup/route.ts:70 | a date text of the YYYY-MM-DD shape has nothing to trim |
| SignupForm.SignupFormState.HandleSubmit | app/m/SignupForm.tsx:35-137 | the page posts exactly when its checks pass, the request built from the form; a failed check shows its message and keeps the form; a refused post shows the server's error or the fallback text; an accepted one clears the form and shows the mail and approval notice, with the debug link only when the mail was not sent |
| SignupForm.SignupFormState.constructor | app/m/SignupForm.tsx:14-30 | the page starts with the empty form, not loading, with no error, no notice and no debug link |
| SignupForm.PayloadFields | app/m/SignupForm.tsx:85-96 | the posted body carries the form's name, e-mail, birth date, password and role as text |
| SignupForm.PayloadConsents | app/m/SignupForm.tsx:85-96 | the posted body carries the consents as booleans and the guardian fields as text |
| SignupForm.ChecksOfSentFields | app/m/SignupForm.tsx:41-96 | fields the form let through pass the server's consent, birth-date, age and guardian checks |
| JsCore.TextOr | app/api/m/user/profile/route.ts:59-62 | a falsy field reads as empty text, text as itself, and a truthy field that is not text throws |
| JsCore.LookupAt | app/api/consult/route.ts:18-20 | a field is read from the first entry with its key |
| JsCore.MongooseText | app/api/m/auth/password-reset/confirm/route.ts:40 | text is stored as itself; a whole non-negative number as its decimal digits; arrays, objects and `null` are not cast |
| JsCore.MongooseTextOfTwelve | app/api/m/auth/password-reset/confirm/route.ts:40 | the number 12 is stored as "12" |
| JsCore.ParseIntAuto | app/api/m/orders/route.ts:18 | without a "0x" prefix, `parseInt` with no radix reads as with radix 10 |
| JsCore.ParseIntAutoOfDigits | app/api/m/materials/route.ts:65 | digit text reads the same with or without a radix |
| JsCore.ParseIntAutoHex | app/api/m/materials/route.ts:65 | "0x10" reads as 16 without a radix and as 0 with radix 10 |
| JsCore.ParseIntAutoZero | app/api/m/materials/route.ts:65 | "0" reads as 0 |
| JsCore.ParseIntAutoValueAgrees | app/api/m/materials/route.ts:65-78 | values other than hex-prefixed text read the same with or without a radix |
| JsCore.Rounded | app/api/m/admin/hall-of-fame/route.ts:25-29 | a value below the overflow bound is kept; from the bound up it is Infinity, and down to minus the bound -Infinity |
| JsCore.StringToNumberOfNat | app/api/m/admin/hall-of-fame/route.ts:25-29 | `Number` of a whole number's digits is that number below the overflow bound and Infinity from it |
| JsCore.DigitsAreNumericLiteral | app/api/m/admin/hall-of-fame/route.ts:25-29 | digit text is a numeric literal with its decimal value, overflowing to Infinity |
| Profile.ReadBody | app/api/m/user/profile/route.ts:52-62 | reading throws exactly for a null body or a truthy phone or guardian field that is not text; otherwise the phone is read as its digits only, the guardian fields trimmed, and marketing is agreed exactly when the body says true |
| Profile.CheckPassesIff | app/api/m/user/profile/route.ts:64-85 | an update passes exactly when the phone is empty or a mobile number, agreeing to marketing comes with a mobile number, and a member who signed up under 14 names a guardian and a contact; a bad phone and a missing phone for marketing are reported exactly when they occur |
| Profile.MarketingAfter | app/api/m/user/profile/route.ts:93-103 | the member keeps a marketing consent exactly when agreeing, either the earlier one or a new one of the current version |
| Profile.AgreeingAgainKeepsFirst | app/api/m/user/profile/route.ts:93-99 | agreeing again keeps the first consent and its time |
| Profile.GuardianAfter | app/api/m/user/profile/route.ts:105-116 | only a member who signed up under 14 has the guardian record changed: it names the new guardian and contact and keeps its first agreement time, or starts now |
| Profile.AcceptedUpdateConsistent | app/api/m/user/profile/route.ts:64-116 | after an accepted update a member with marketing consent has a mobile number, and a member who signed up under 14 has a guardian with a name and a contact |
| Profile.Member.constructor | app/api/m/user/profile/route.ts:40 | the loaded member holds the stored phone, consent, age flag and guardian record |
| Profile.StatusOf | app/api/m/user/profile/route.ts:36-118 | 200 exactly for a saved update, 500 exactly for a throw |
| Profile.PatchRoute | app/api/m/user/profile/route.ts:34-118 | 401 exactly without a session address, then 404 exactly when no member has it, then 400 exactly for a body that is not JSON, then a throw exactly when reading the body throws; otherwise the checks decide, a refusal changes nothing and a saved update sets the member as Patch states |
| Profile.Member.Patch | app/api/m/user/profile/route.ts:64-118 | a refused update changes nothing; an accepted one stores the phone's digits or none, the marketing and guardian records as the rules say, and leaves the member consistent |
| KakaoWebhook.ActionType | app/api/kakao/webhook/route.ts:103-105 | the action_type parameter wins when it is not empty; otherwise the action's name; otherwise empty text |
| KakaoWebhook.ApplicationType | app/api/kakao/webhook/route.ts:10-15 | exactly the four submit_ action types apply for a consultation, each for the type it names |
| KakaoWebhook.ActionKindsDisjoint | app/api/kakao/webhook/route.ts:110-171 | no action type both applies for a consultation and acts on a scheduled one |
| KakaoWebhook.ChangeRequestText | app/api/kakao/webhook/route.ts:57 | the change request is never empty, and is the message when there is one |
| KakaoWebhook.CancelRequestText | app/api/kakao/webhook/route.ts:85 | the cancel request starts with the cancel label, and is exactly the label when no reason is given |
| KakaoWebhook.CancelReasonReadBack | app/api/kakao/webhook/route.ts:85 | a given reason follows the label and a colon and space, in full |
| KakaoWebhook.RemoveHyphens | app/api/kakao/webhook/route.ts:18 | the cleaned phone has no hyphen and is no longer |
| KakaoWebhook.RemoveHyphensNoHyphen | app/api/kakao/webhook/route.ts:18 | a phone without hyphens is left as it is |
| KakaoWebhook.Latest | app/api/kakao/webhook/route.ts:20-21 | the lookup finds a scheduled consultation with that name and phone, last updated among them; it finds none exactly when there is none |
| KakaoWebhook.FindScheduledIff | app/api/kakao/webhook/route.ts:17-23 | nothing is found exactly when no scheduled consultation matches the name with either the cleaned or the given phone; the cleaned phone is tried first; what is found is the latest match |
| KakaoWebhook.Marked | app/api/kakao/webhook/route.ts:25-37 | after marking, consent is given with a time and a version; an earlier time and a non-empty earlier version are kept |
| KakaoWebhook.MarkedIdempotent | app/api/kakao/webhook/route.ts:25-37 | marking twice is marking once |
| KakaoWebhook.Consultation.MarkChannelMarketingConsent | app/api/kakao/webhook/route.ts:25-37 | the consultation's consent is marked and nothing else changes |
| KakaoWebhook.Consultation.Record | app/api/kakao/webhook/route.ts:57-145 | the request text or the confirmation time is recorded for the action, consent is marked and the update time set; name, phone, status and schedule stay |
| KakaoWebhook.Apply | app/api/kakao/webhook/route.ts:171-213 | an application is stored exactly when the answer says so, and the answer is the unknown-request error exactly for an action type that is not one of the four |
| KakaoWebhook.AppliedRecord | app/api/kakao/webhook/route.ts:176-202 | a stored application has the type of its action, the trimmed non-empty name, the digits of the phone (not empty) and a channel marketing consent given now with the channel version |
| KakaoWebhook.Target | app/api/kakao/webhook/route.ts:44-49 | the consultation acted on is one of the stored ones |
| KakaoWebhook.HandleScheduled | app/api/kakao/webhook/route.ts:39-157 | the consultation acted on is the one the lookup finds; with none nothing changes; otherwise it alone records the action and the reply names its date and time for a confirmation |
| KakaoWebhook.Post | app/api/kakao/webhook/route.ts:95-218 | a body that is not JSON is answered with an error and changes nothing; an application action stores at most the new application and changes no stored consultation; a scheduled action never creates one; a created application has consent and a digit phone |
| Orders.AmountOfChoice | app/api/m/orders/route.ts:68-70 | choosing neither file costs nothing, naming a file twice does not charge it twice, and adding the problem file adds its price only when it was not already chosen |
| Orders.NonEmpty | app/api/m/orders/route.ts:82 | the kept title parts are the non-empty ones among the parts |
| Orders.TitleWords | app/api/m/orders/route.ts:76-82 | splitting the title at spaces gives back the non-empty parts, when no part holds a space |
| Orders.SplitJoin | app/api/m/orders/route.ts:82 | joining words without spaces with single spaces and splitting at spaces gives the words back |
| Orders.NoSpaceIndex | app/api/m/orders/route.ts:82 | the first space of a text after a space-free word is found after that word |
| Orders.FindPaid | app/api/m/orders/route.ts:60 | a paid order found is the caller's order for that material; none found means the caller has no paid order for it |
| Orders.DeletePending | app/api/m/orders/route.ts:66 | exactly the caller's pending orders for that material are removed |
| Orders.PlacedIff | app/api/m/orders/route.ts:47-97 | an order is placed exactly when a material id and a non-empty file list are sent, the active material exists and is not free, the caller has not paid for it, and the chosen files cost something |
| Orders.PlacedOrder | app/api/m/orders/route.ts:65-95 | a placed order is pending, belongs to the caller, names the material with its title and charges the chosen files' price; the caller's earlier pending orders for it are gone and every other order stays |
| Orders.NoAmountStillDeletes | app/api/m/orders/route.ts:65-74 | an order refused for costing nothing has already removed the caller's pending orders for the material |
| Orders.OtherRefusalsChangeNothing | app/api/m/orders/route.ts:47-63 | every other refusal leaves the stored orders as they were |
| Orders.Filter | app/api/m/orders/route.ts:23-27 | the listed orders are exactly the stored ones the caller may see with the status asked for |
| Orders.ListShowsOwnOrders | app/api/m/orders/route.ts:14-34 | corrected paging (Paging.Page: a page that does not parse is 1, where the code as written gives NaN): a caller who is not an administrator sees only their own orders, of the status asked for, at most 20 per page, on a page of at least 1, and the page count covers every match |
| Orders.WindowListed | app/api/m/orders/route.ts:30 | every order on a page is one the caller may see with that status |
| Orders.ListNewestFirst | app/api/m/orders/route.ts:30 | the orders on a page are newest first |
| Orders.WindowNewestFirst | app/api/m/orders/route.ts:30 | a page of orders sorted newest first is itself newest first |
| Orders.Post | app/api/m/orders/route.ts:37-97 | 401 exactly without a session; a `null` or unreadable body throws; an order is placed exactly when a material id and at least one file type are given, the material exists and is not free, the caller has no paid order for it, and the amount is positive |
| Orders.NonObjectBodyRefused | app/api/m/orders/route.ts:42-49 | a JSON body that is neither an object nor `null` is refused as missing its fields |
| Orders.ListRoute | app/api/m/orders/route.ts:10-34 | corrected paging (Paging.Page: a page that does not parse is 1, where the code as written gives NaN): 401 exactly without a session; the page is at least 1 and holds at most the page size; a non-administrator sees only their own orders |
| Materials.NumberParam | app/api/m/materials/route.ts:17-28 | a difficulty or grade filter applies exactly when its parameter is present and not empty |
| Materials.Filter | app/api/m/materials/route.ts:23-28 | the listed materials are exactly the stored ones the query matches |
| Materials.SortOf | app/api/m/materials/route.ts:19-39 | any order other than newest first comes from a sort parameter |
| Materials.ListMatches | app/api/m/materials/route.ts:14-43 | corrected paging (Paging.Page: a page that does not parse is 1, where the code as written gives NaN): every listed material is active and matches the filters, at most 20 per page, the page is at least 1, and the page count is the least that covers every match |
| Materials.WindowMatches | app/api/m/materials/route.ts:39 | every material on a page matches the query |
| Materials.ListOrdered | app/api/m/materials/route.ts:30-39 | the page is in the order the sort parameter names |
| Materials.SortNames | app/api/m/materials/route.ts:19-39 | newest first is used exactly when the parameter is missing or not one of the four other names; diff_asc and diff_desc order by rating up and down |
| Materials.MatchingCounted | app/api/m/materials/route.ts:40 | a stored material that matches is counted in the total |
| Materials.IntOr | app/api/m/materials/route.ts:65-78 | a field whose radix-less `parseInt` reading is a non-zero integer gives it; a reading that is NaN or 0 gives the default, so a non-zero default never gives 0 |
| Materials.Clamp | app/api/m/materials/route.ts:67 | the rating is kept between 100 and 2000 and one already inside is unchanged |
| Materials.RatingAsWritten | app/api/m/materials/route.ts:66-68 | as written: a given rating that does not read as an integer leaves no number (NaN); any other outcome is between 100 and 2000 |
| Materials.RatingAsWrittenNaN | app/api/m/materials/route.ts:66-67 | the rating "hard" leaves no number |
| Materials.Rating | app/api/m/materials/route.ts:64-68 | the rating is between 100 and 2000: a readable given rating clamped, otherwise the table value of difficulty 1 to 5, otherwise 1000 |
| Materials.RatingAgrees | app/api/m/materials/route.ts:64-68 | wherever the code as written gives a number it is the corrected rating; where it gives none the corrected one falls back to the difficulty's value |
| Materials.FileTypeFrom | app/api/m/materials/route.ts:85 | a known file type is kept and anything else becomes pdf |
| Materials.AudienceFrom | app/api/m/materials/route.ts:86 | a known audience is kept and anything else becomes student |
| Materials.PostCreatedIff | app/api/m/materials/route.ts:47-62 | a material is created exactly when an administrator sends a type, a subject and a difficulty that reads as 1 to 5 (3 when missing); anyone else gets 403, a missing field 400, and a difficulty outside 1 to 5 fails the schema's check and answers 500 |
| Materials.DifficultyExamples | app/api/m/materials/route.ts:65 | a difficulty of 7 is refused by the schema, and a missing difficulty reads as 3 |
| Materials.CreatedMaterial | app/api/m/materials/route.ts:64-94 | corrected rating (Materials.Rating: a rating that does not parse falls back to the table value, where the code as written makes the create fail): a created material is active, keeps the type and subject, has the difficulty sent, within 1 to 5 (3 when unreadable), the rating of that difficulty between 100 and 2000, the known file type and audience sent, file names exactly when sent as text, and non-zero grade and semester |
| Materials.IntOrReadsHex | app/api/m/materials/route.ts:65-78 | the radix-less "0x10" reads as 16, and "0" falls back as falsy |
| Upload.RoleOf | app/api/m/admin/upload/route.ts:35-45 | a missing or empty role is the problem file, and the preview role is used exactly for "preview" |
| Upload.AllowedExtensions | app/api/m/admin/upload/route.ts:11-45 | an unknown role allows no extension |
| Upload.Extension | app/api/m/admin/upload/route.ts:44 | the extension holds no dot and no upper-case ASCII letter and is no longer than the name |
| Upload.SizeLimit | app/api/m/admin/upload/route.ts:53 | a preview may have 10 MiB and every other file 100 MiB |
| Upload.StoredIff | app/api/m/admin/upload/route.ts:17-86 | a file is stored exactly when an administrator sends a non-empty file within its role's size limit whose extension the role allows |
| Upload.UnknownRoleStoresNothing | app/api/m/admin/upload/route.ts:45-51 | a file with an unknown role is never stored |
| Upload.StoredFile | app/api/m/admin/upload/route.ts:53-86 | the stored name is the generated id with the extension; previews go to the public directory and nothing else does; only a problem file gets generated previews, and the warning is given exactly for a problem hwp without previews; previews are images of at most 10 MiB and other files pdf or hwp |
| Upload.ExtensionExamples | app/api/m/admin/upload/route.ts:44 | "exam.final.PDF" has the extension pdf, "scan.Hwp" hwp, and a name without a dot is its own extension |
| Upload.ExtensionAfterLastDot | app/api/m/admin/upload/route.ts:44 | the extension is the lower-cased text after the last dot, or the whole name lower-cased when it has no dot |
| ExtractColor.Filtered | tmp/extract_color.py:13-17 | the kept pixels are exactly the pixels that are neither near-white nor near-black |
| ExtractColor.FilteredCounts | tmp/extract_color.py:13-17 | every kept colour is kept as often as it occurs in the image |
| ExtractColor.FirstIndex | tmp/extract_color.py:22-23 | the first position at which a colour occurs in scan order |
| ExtractColor.MostCommon | tmp/extract_color.py:22-23 | the chosen colour occurs, no colour occurs more often, and every colour seen before it occurs strictly less often |
| ExtractColor.MostCommonAmong | tmp/extract_color.py:22-23 | among the first n pixels the chosen colour is one of them, none of them occurs more often, and those seen before it occur strictly less often |
| ExtractColor.Hex2 | tmp/extract_color.py:24 | a channel is written as two characters |
| ExtractColor.ColorHex | tmp/extract_color.py:24 | a colour is written as '#' and six lower-case hex digits |
| ExtractColor.HexValue | tmp/extract_color.py:24 | a lower-case hex digit reads back as its value |
| ExtractColor.Hex2RoundTrip | tmp/extract_color.py:24 | the two digits of a channel read back as the channel, so the padding is to two digits |
| ExtractColor.ParseColorHexRoundTrip | tmp/extract_color.py:24 | the written colour reads back as the colour |
| ExtractColor.DominantColorIsMostCommonKept | tmp/extract_color.py:13-24 | the answer is the no-colour message exactly when no pixel is kept; otherwise it writes a kept pixel that no kept pixel outnumbers and that every kept colour seen before it is outnumbered by |
| ExtractColor.EarlierInFiltered | tmp/extract_color.py:13-17 | a kept pixel seen before the first occurrence of a kept colour is also before it among the kept pixels, at the returned position |
| ExtractColor.FirstIndexShift | tmp/extract_color.py:22-23 | the first position of a colour not at the head is one more than its first position in the rest |
| ExtractColor.UniformImage | tmp/extract_color.py:13-24 | an image of one kept colour gives that colour's hex text |
| ExtractColor.FailureReportsMessage | tmp/extract_color.py:6-26 | a failure while loading is answered with its message |
| GeneratePreview.AsciiText | lib/generatePreview.ts:64-65 | ASCII decoding gives one character per byte, with the byte's high bit dropped |
| GeneratePreview.DetectImageExtension | lib/generatePreview.ts:35-71 | png exactly for the 8-byte PNG signature, jpg exactly for FF D8 FF without it, webp exactly for RIFF and WEBP at bytes 0 and 8 without either |
| GeneratePreview.HeadersDisjoint | lib/generatePreview.ts:35-71 | the three headers begin with different bytes, so at most one can match |
| GeneratePreview.WebpHeaderDetected | lib/generatePreview.ts:62-68 | any RIFF container whose form type is WEBP is detected as webp, whatever its size field |
| GeneratePreview.PngSignatureDetected | lib/generatePreview.ts:37-49 | any buffer starting with the PNG signature is detected as png |
| GeneratePreview.HighBitHeaderDetected | lib/generatePreview.ts:64-65 | because ASCII decoding drops the high bit, the header bytes D2 C9 C6 C6 ... D7 C5 C2 D0 are taken as webp too |
| GeneratePreview.AcceptEmbedded | lib/generatePreview.ts:149-192 | an extracted preview is taken exactly when it has at least 32 bytes and a known image header, with that header's format |
| GeneratePreview.EmbeddedPreview | lib/generatePreview.ts:139-201 | a preview file is produced exactly when the extractor gives an accepted image that is saved, named by the id and its format |
| GeneratePreview.EmbeddedPngNamed | lib/generatePreview.ts:149-159 | a PNG preview of 32 bytes or more is saved with the png extension |
| GeneratePreview.JpegStem | lib/generatePreview.ts:311-312 | the part before a .jpg or .jpeg ending is a shorter prefix of the name |
| GeneratePreview.TrailingDigits | lib/generatePreview.ts:311-312 | the count of digits at the end of a text, which are all digits and preceded by a non-digit |
| GeneratePreview.PageNumber | lib/generatePreview.ts:311-312 | a page number is never negative |
| GeneratePreview.TrailingDigitsAfterDash | lib/generatePreview.ts:311 | after a dash the trailing digits are exactly those written |
| GeneratePreview.PageNumberOfPageFile | lib/generatePreview.ts:311-312 | a file named base-N.jpg has page number N |
| GeneratePreview.PageFiles | lib/generatePreview.ts:308-309 | the page files are exactly the listed files with the prefix and a jpg or jpeg ending, each as often as listed |
| GeneratePreview.JpegPages | lib/generatePreview.ts:308-314 | the sorted pages are a permutation of the page files |
| GeneratePreview.ConvertPdfToJpegs | lib/generatePreview.ts:293-325 | one preview per page file, each named by a fresh id with .jpg, copied from the page files in page-number order |
| GeneratePreview.EmbeddedPreviewWins | lib/generatePreview.ts:347-365 | an hwp or hwpx file with an embedded preview gives that one preview, whatever the converters would do |
| GeneratePreview.FailuresGiveNoPreviews | lib/generatePreview.ts:333-381 | when nothing can be extracted or converted the result is empty |
| GeneratePreview.ConversionSource | lib/generatePreview.ts:351-371 | without an embedded preview a failed PDF conversion gives nothing; an hwpx file converted to PDF gives that PDF's pages |
| PageCount.FirstPagesAt | lib/material-page-count.ts:67 | the search finds the first line, from a position on, that starts with "Pages:" (any case), whitespace and digits, and finds none only when no such line follows |
| PageCount.ParsePdfPageCount | lib/material-page-count.ts:66-71 | a count is read exactly when the first such line carries a positive number, and it is that number |
| PageCount.ReadsPagesLine | lib/material-page-count.ts:66-71 | a "Pages:" line after any text without one gives its number when positive, and nothing for 0 |
| PageCount.PagesLineMatches | lib/material-page-count.ts:67 | a "Pages:" line of spaces and digits at the start of a line matches and captures its digits |
| PageCount.PagesLineHead | lib/material-page-count.ts:67 | such a line starts with "pages:" in lower case, then the spaces, then the digits |
| PageCount.LineAfter | lib/material-page-count.ts:67 | text after a line terminator starts a line |
| PageCount.CapturedDigits | lib/material-page-count.ts:67-69 | a matching line captures exactly its run of digits |
| PageCount.WhitespaceRunOf | lib/material-page-count.ts:67 | the whitespace run before a digit is exactly the spaces written |
| PageCount.DigitRunOf | lib/material-page-count.ts:67 | the digit run before a non-digit is exactly the digits written |
| PageCount.SectionParts | lib/material-page-count.ts:177 | the section parts are exactly the archive entries named contents/section*.xml, in any case |
| PageCount.HwpxEstimate | lib/material-page-count.ts:181-185 | the estimate is at least 1: sections plus page breaks, or page breaks plus one without sections |
| PageCount.EstimatedPageCount | lib/material-page-count.ts:189-195 | an estimate read from the script is positive |
| PageCount.EstimateReadBack | lib/material-page-count.ts:170-195 | the number the script prints is read back as the estimate |
| PageCount.NumberLineReadBack | lib/material-page-count.ts:191-192 | a printed number is read back when positive, and 0 gives nothing |
| PageCount.PdfPageCount | lib/material-page-count.ts:73-80 | a PDF's count is positive when there is one |
| PageCount.ConvertedPageCount | lib/material-page-count.ts:198-217 | a converted document's count is positive when there is one |
| PageCount.ComputePageCount | lib/material-page-count.ts:231-241 | a count is positive; only .pdf, .hwp and .hwpx get one; an hwpx that cannot be converted falls back to the estimate |
| PageCount.OdtOnlyForHwp | lib/material-page-count.ts:204-240 | when direct conversion fails an hwpx file is estimated, and only an hwp file goes through ODT |
| PageCount.PageCountCache.constructor | lib/material-page-count.ts:10 | the cache starts empty |
| PageCount.PageCountCache.GetMaterialFilePageCount | lib/material-page-count.ts:219-249 | no name gives nothing; a cached name gives its cached count without looking again; a missing file gives nothing; otherwise the computed count, which is cached when positive and otherwise dropped from the cache; every cached count stays positive |
| PageCount.CachedOnSecondRequest | lib/material-page-count.ts:222-244 | a count once found is given again for the same name, whatever the tools would report the second time |
| PageCount.OtherExtensionsUncounted | lib/material-page-count.ts:231-241 | an upload with another extension gets no count |
| MaterialDisplay.UnderscoresToSpace | lib/material-display.ts:51 | no underscore is left |
| MaterialDisplay.CollapseWhitespace | lib/material-display.ts:53 | collapsing whitespace keeps text empty exactly when it was, keeps whether it starts and ends with whitespace, and adds no underscore |
| MaterialDisplay.CollapseIsSpaced | lib/material-display.ts:53 | after collapsing, every whitespace is a single space and no two spaces are adjacent |
| MaterialDisplay.CollapseSpacedFixed | lib/material-display.ts:53 | text already single-spaced is left as it is |
| MaterialDisplay.TrimSpacedIsTrim | lib/material-display.ts:53-54 | on single-spaced text, trimming removes at most one space at each end, and the result is display-normal |
| MaterialDisplay.NormalizeDisplayTextNormal | lib/material-display.ts:49-55 | display text is single-spaced, without underscores or outer spaces, and is the underscore, middle-dot, whitespace and trim steps in that order |
| MaterialDisplay.NormalTextIsFixed | lib/material-display.ts:49-55 | display-normal text without a middle dot is its own display text |
| MaterialDisplay.ToCompareKey | lib/material-display.ts:57-61 | a compare key has no separator and no upper-case letter |
| MaterialDisplay.CompareKeyIgnoresSeparator | lib/material-display.ts:60 | a separator anywhere does not change the key |
| MaterialDisplay.CompareKeyIdempotent | lib/material-display.ts:57-61 | the key of a key is itself |
| MaterialDisplay.Dedup | lib/material-display.ts:66-73 | kept parts are non-empty, have non-empty keys not seen before, and come from the input |
| MaterialDisplay.DedupKeysDistinct | lib/material-display.ts:66-73 | no two kept parts share a compare key |
| MaterialDisplay.DedupCovers | lib/material-display.ts:66-73 | every normalised part with a usable key not seen before is represented at the returned position by a kept part with that key |
| MaterialDisplay.UniquePartsNormal | lib/material-display.ts:63-75 | every kept part is non-empty display text |
| MaterialDisplay.UniqueDisplayParts | lib/material-display.ts:63-75 | the loop keeps the first part for each compare key, in order, skipping empty parts and empty keys |
| MaterialDisplay.UniquePartsCover | lib/material-display.ts:66-73 | every usable part is represented, at the returned position, by a kept part with the same compare key |
| MaterialDisplay.FirstUsablePartLeads | lib/material-display.ts:66-73 | a usable first part is kept first |
| MaterialDisplay.StripLeadingDisplayHint | lib/material-display.ts:81-85 | stripping never lengthens the text; empty text or hint is returned as is; text not starting with the hint is only trimmed |
| MaterialDisplay.StripWholeHint | lib/material-display.ts:83-84 | a text that is only the hint and separators becomes empty |
| MaterialDisplay.NormalizeTopicForDisplay | lib/material-display.ts:87-105 | the loop over the subject's hints computes the topic for display |
| MaterialDisplay.TopicNeverRepeatsSubject | lib/material-display.ts:87-105 | the topic shown is no longer than the topic, and is empty or has a key different from the subject's |
| MaterialDisplay.TopicWithoutSubject | lib/material-display.ts:90 | without a subject the topic is its display text |
| MaterialDisplay.ResolveSourceCategory | lib/material-display.ts:107-125 | any e-book hint gives ebook; otherwise a textbook type gives textbook, a reference type reference, and else the stored category or school_exam |
| MaterialDisplay.ResolveSourceCategoryStable | lib/material-display.ts:107-125 | storing the resolved category and resolving again gives the same category |
| MaterialDisplay.StoredCategoryIgnoredWithHint | lib/material-display.ts:121-123 | with a hint from the type or e-book fields the stored category does not matter |
| MaterialDisplay.JoinDisplayNormal | lib/material-display.ts:139-177 | joining display-normal parts with " " or " · " gives display-normal text that starts with the first part |
| MaterialDisplay.NumberLabel | lib/material-display.ts:160-162 | a label is empty exactly when the number is missing or 0 |
| MaterialDisplay.BuildMaterialTitle | lib/material-display.ts:127-156 | a title is display-normal text |
| MaterialDisplay.SchoolExamTitleLeadsWithSubject | lib/material-display.ts:135-140 | a school-exam title starts with its subject |
| MaterialDisplay.BuildMaterialSubline | lib/material-display.ts:158-196 | a subline is display-normal text |
| MaterialDisplay.FilterTruthy | lib/material-display.ts:212 | exactly the truthy values are kept, and all of them when none is falsy |
| MaterialDisplay.BuildMaterialNameParts | lib/material-display.ts:198-233 | name parts are truthy, at most four for an e-book and at most seven in all |
| MaterialDisplay.FilterTruthyConcat | lib/material-display.ts:212 | filtering a concatenation filters each part, so the kept values keep their order |
| MaterialDisplay.FilterTruthyDropsFalsy | lib/material-display.ts:212 | a falsy value is left out and the values on either side keep their order |
| MaterialDisplay.SchoolExamNameOfFullData | lib/material-display.ts:199-212 | a school exam with every field set is named by school, year, grade, semester, subject and topic, in that order |
| MaterialDisplay.EbookNameOfFullData | lib/material-display.ts:199-221 | an e-book with every field set is named by book title, topic, publisher and year, in that order |
| MaterialDisplay.BookNameOfFullData | lib/material-display.ts:199-232 | any other material with every field set is named by publisher, school level, year, grade, subject, book title and topic, in that order |
| MaterialDisplay.EbookNameWithoutTopic | lib/material-display.ts:199-221 | an e-book without a topic is named by its book title, publisher and year, in that order, without the falsy ones |
| MaterialDisplay.DedupKeepsDistinct | lib/material-display.ts:66-73 | parts whose comparison keys are non-empty, distinct and unseen are all kept, in order |
| MaterialDisplay.UniquePartsAllKept | lib/material-display.ts:63-75 | usable parts with distinct keys are all kept, normalised, in order |
| MaterialDisplay.TitleShowsEveryPart | lib/material-display.ts:127-156 | with distinct usable parts, the title is every title part normalised, in order, joined by spaces |
| MaterialDisplay.SchoolExamTitleParts | lib/material-display.ts:127-140 | a school exam's title is its subject, a space, and its topic or else its type |
| MaterialDisplay.SublineShowsEveryPart | lib/material-display.ts:158-196 | with distinct usable parts, the subline is every subline part normalised, in order, joined by " · " |
| TestHint.WithHint | test-hint.js:15-22 | the e-book word as type or subject gives ebook; a textbook type textbook; a reference type reference; otherwise the stored category or school_exam |
| TestHint.SampleIsReference | test-hint.js:24 | the sample call gives reference |
| TestHint.AgreesWithDisplay | test-hint.js:15-22 | without the English word "ebook" or e-book fields the script agrees with the library's resolution |
| TestHint.EnglishTypeWordDiffers | test-hint.js:18 | the script ignores the type "ebook", which the library treats as an e-book hint |
| MigrateSourceCategory.ToNumber | scripts/migrateMaterialSourceCategory.ts:63-70 | a finite number is itself, any other number nothing; text parses as an integer; other values give nothing |
| MigrateSourceCategory.ResolveSourceCategory | scripts/migrateMaterialSourceCategory.ts:94-118 | any e-book hint, including the teacher product type, gives ebook; then textbook and reference types; then a valid stored category, else school_exam |
| MigrateSourceCategory.AgreesWithDisplay | scripts/migrateMaterialSourceCategory.ts:94-118 | apart from the teacher product type and untrimmed stored text the script agrees with the library's resolution |
| MigrateSourceCategory.CleanupSteps | scripts/migrateMaterialSourceCategory.ts:187-196 | exactly the e-book fields not already cleared are set, each to its cleared value |
| MigrateSourceCategory.CategoryEntry | scripts/migrateMaterialSourceCategory.ts:182-184 | the category is set exactly when the stored text differs from the resolved category |
| MigrateSourceCategory.SourceCategorySetIff | scripts/migrateMaterialSourceCategory.ts:180-197 | the update leads with the category exactly when the stored text differs from the resolved one |
| MigrateSourceCategory.OnlyEbooksLoseSchoolFields | scripts/migrateMaterialSourceCategory.ts:186-197 | a material that is not an e-book has at most its category set |
| MigrateSourceCategory.ApplyGet | scripts/migrateMaterialSourceCategory.ts:219 | after applying an update a field holds a value the update sets, or is unchanged when the update does not name it |
| MigrateSourceCategory.MigratedCategory | scripts/migrateMaterialSourceCategory.ts:180-219 | after migration the stored category is the resolved one and the identifying and hint fields are unchanged |
| MigrateSourceCategory.MigratedKeepsOthers | scripts/migrateMaterialSourceCategory.ts:186-197 | for a material that is not an e-book no other field changes |
| MigrateSourceCategory.MigratedEbookCleared | scripts/migrateMaterialSourceCategory.ts:186-197 | after migration every school field of an e-book is cleared |
| MigrateSourceCategory.MigrationIsIdempotent | scripts/migrateMaterialSourceCategory.ts:175-199 | a migrated material needs no further change, so a second run changes nothing |
| MigrateSourceCategory.ResolveStable | scripts/migrateMaterialSourceCategory.ts:94-197 | migration does not change what the material resolves to |
| MigrateSourceCategory.EbookSubjectIsHint | scripts/migrateMaterialSourceCategory.ts:106 | the e-book subject makes a material an e-book |
| MigrateSourceCategory.Changed | scripts/migrateMaterialSourceCategory.ts:199-200 | the changed materials are those of the scan with something to set |
| MigrateSourceCategory.TransitionsTotal | scripts/migrateMaterialSourceCategory.ts:202-204 | the transition counts add up to the number of changed materials |
| MigrateSourceCategory.Operations | scripts/migrateMaterialSourceCategory.ts:215-221 | one update per changed material, setting its fields |
| MigrateSourceCategory.Samples | scripts/migrateMaterialSourceCategory.ts:206-213 | the samples are the first 15 changed materials |
| MigrateSourceCategory.Run | scripts/migrateMaterialSourceCategory.ts:170-234 | the report counts the scanned and changed materials, the transitions and samples; with apply exactly the updates of the changed materials are written, in batches of 300, and without it nothing |
| MigrateSourceCategory.Scan | scripts/migrateMaterialSourceCategory.ts:175-228 | one material is counted, sampled and pushed to the buffer exactly when it has something to set |
| MigrateCurriculum.ResolveCurriculum | scripts/migrateMaterialCurriculum.ts:59-65 | legacy exactly for a non-e-book material with a legacy subject |
| MigrateCurriculum.Current | scripts/migrateMaterialCurriculum.ts:113-114 | the current curriculum is empty or a known curriculum |
| MigrateCurriculum.NeedsUpdateIff | scripts/migrateMaterialCurriculum.ts:113-117 | an unknown stored curriculum always needs an update; a known one exactly when it differs from the resolved one |
| MigrateCurriculum.MigrationIsIdempotent | scripts/migrateMaterialCurriculum.ts:111-137 | a migrated material resolves alike and needs no further update |
| MigrateCurriculum.Changed | scripts/migrateMaterialCurriculum.ts:117-118 | the changed materials come from the scan and need an update |
| MigrateCurriculum.ChangedComplete | scripts/migrateMaterialCurriculum.ts:117-118 | every material that needs an update is changed |
| MigrateCurriculum.TransitionsTotal | scripts/migrateMaterialCurriculum.ts:120-121 | the transition counts add up to the number of changed materials |
| MigrateCurriculum.Samples | scripts/migrateMaterialCurriculum.ts:123-129 | the samples are the first 15 changed materials |
| MigrateCurriculum.Operations | scripts/migrateMaterialCurriculum.ts:131-137 | one update per changed material, setting its resolved curriculum |
| MigrateCurriculum.Run | scripts/migrateMaterialCurriculum.ts:106-150 | the report counts the scanned and changed materials, the transitions and samples; with apply exactly the updates of the changed materials are written, in batches of 300 |
| MigrateCurriculum.Scan | scripts/migrateMaterialCurriculum.ts:111-144 | one material is counted, sampled and pushed to the buffer exactly when it needs an update |
| UserAccount.User.constructor | lib/models/User.ts:17-23 | a user holds the given state |
| UserAccount.User.State | lib/models/User.ts:17-23 | the state carries the user's fields |
| UserAccount.StateOf | app/api/m/auth/verify-email/route.ts:30-32 | the state of the user a lookup found |
| UserAccount.FindByVerifyToken | app/api/m/auth/verify-email/route.ts:30 | the user found holds the hash, and none is found only when no user does |
| UserAccount.FindById | app/api/m/auth/verify-email/route.ts:32 | the user found has the id, and none is found only when no user has it |
| UserAccount.FindByEmail | lib/models/User.ts:35-37 | the lookup casts the address through the schema's `lowercase` and `trim` setters: the user found has the lower-cased, trimmed address, and none is found only when no user has it |
| UserAccount.EmailKeyNormal | lib/models/User.ts:18 | a cast address is lower-case, trimmed and no longer than the one given |
| UserAccount.EmailKeyIdempotent | lib/models/User.ts:18 | casting a cast address changes nothing |
| UserAccount.FindByEmailIgnoresSpelling | lib/models/User.ts:35-37 | letter case and surrounding whitespace do not change which user the lookup finds |
| PasswordReset.ErrorStatus | app/api/m/auth/password-reset/confirm/route.ts:10-50 | 500 exactly for a thrown error, 400 for every refusal |
| PasswordReset.ResetIff | app/api/m/auth/password-reset/confirm/route.ts:6-45 | a password is reset exactly when the fields are text, the password has at least 8 characters, and the user found holds an unexpired token with the matching hash |
| PasswordReset.ResetReplacesPassword | app/api/m/auth/password-reset/confirm/route.ts:40-43 | a reset stores the new password, removes both token fields and changes nothing else |
| PasswordReset.SingleUse | app/api/m/auth/password-reset/confirm/route.ts:25-42 | the same request after a reset is refused for want of a token |
| PasswordReset.RefusalOrder | app/api/m/auth/password-reset/confirm/route.ts:13-31 | a short password is refused before the lookup, a missing token before an expired one |
| PasswordReset.ConfirmReset | app/api/m/auth/password-reset/confirm/route.ts:6-51 | corrected length check (PasswordReset.Confirm: a numeric password is refused as short, where the code as written accepts it): on the stored users, the answer is the decision for the user the lookup finds by the lower-cased, trimmed address, that user is saved as decided, and no other user changes |
| PasswordReset.TokenRefusal | app/api/m/auth/password-reset/confirm/route.ts:25-31 | the token passes exactly when a non-empty hash is stored, it has not expired, and the token is text hashing to it |
| PasswordReset.NumericPasswordAsWritten | app/api/m/auth/password-reset/confirm/route.ts:13-43 | as written, a numeric new password 12 passes the length check and "12" is saved; corrected, it is refused as short |
| PasswordReset.ConfirmAgreesOnText | app/api/m/auth/password-reset/confirm/route.ts:13-43 | for a text password the code as written and the corrected code agree |
| VerifyEmail.SuccessRedirect | app/api/m/auth/verify-email/route.ts:19-28 | a success redirect, marked approval-pending exactly for a teacher awaiting approval |
| VerifyEmail.EmptyTokenInvalid | app/api/m/auth/verify-email/route.ts:12-14 | a link without a token is invalid and changes nothing |
| VerifyEmail.UnknownToken | app/api/m/auth/verify-email/route.ts:30-40 | an unknown token changes nothing and succeeds exactly when the link's id names a verified user |
| VerifyEmail.ExpiredTokenCleared | app/api/m/auth/verify-email/route.ts:42-55 | an expired token is cleared and nothing else changes; a verified user succeeds, an unverified one is told it expired |
| VerifyEmail.ValidTokenVerifies | app/api/m/auth/verify-email/route.ts:57-63 | a valid token marks the user verified and keeps the token and its expiry |
| VerifyEmail.ValidLinkAgain | app/api/m/auth/verify-email/route.ts:57-63 | opening a valid link again gives the same answer and state |
| VerifyEmail.VerifiedStaysVerified | app/api/m/auth/verify-email/route.ts:42-63 | verification is never undone, and success through the token leaves the user verified |
| VerifyEmail.Open | app/api/m/auth/verify-email/route.ts:9-64 | on the stored users, the redirect is the decision, the token's holder is saved as decided, and no other user changes |
| HallOfFameAdmin.KindOf | app/api/m/admin/hall-of-fame/route.ts:11-14 | exactly the texts "admission" and "review" name a kind |
| HallOfFameAdmin.SortOrder | app/api/m/admin/hall-of-fame/route.ts:25-29 | a value that `Number` does not make finite gives 0, including digit text that overflows to Infinity; a finite number is truncated toward zero |
| HallOfFameAdmin.SortOrderAgrees | app/api/m/admin/hall-of-fame/route.ts:25-29 | the route's sort order agrees with the shared parser, and is 0 where the parser gives nothing |
| HallOfFameAdmin.SortOrderOfDigits | app/api/m/admin/hall-of-fame/route.ts:25-29 | a decimal text gives its number below the overflow bound and 0 from it on, where `Number` gives Infinity |
| HallOfFameAdmin.Limit | app/api/m/admin/hall-of-fame/route.ts:43-44 | the page size is between 1 and 100 |
| HallOfFameAdmin.LimitDefault | app/api/m/admin/hall-of-fame/route.ts:43-44 | a missing or non-numeric size gives 30 |
| HallOfFameAdmin.LimitOfNumber | app/api/m/admin/hall-of-fame/route.ts:43-44 | a decimal size is clamped to between 1 and 100 |
| HallOfFameAdmin.TotalPage | app/api/m/admin/hall-of-fame/route.ts:78 | at least one page, enough pages for every entry and no more |
| HallOfFameAdmin.Filter | app/api/m/admin/hall-of-fame/route.ts:46-63 | exactly the stored entries matching the query are kept |
| HallOfFameAdmin.Ordered | app/api/m/admin/hall-of-fame/route.ts:67 | the listing order is a permutation of the entries |
| HallOfFameAdmin.OrderedByAllKeys | app/api/m/admin/hall-of-fame/route.ts:67 | the order is by sort order, then newest update, then newest creation |
| HallOfFameAdmin.ListMatches | app/api/m/admin/hall-of-fame/route.ts:31-80 | corrected paging (Paging.Page: a page that does not parse is 1, where the code as written gives NaN): only an administrator gets a listing; every entry listed is stored and matches the query; at most a page of them; the page count covers the total |
| HallOfFameAdmin.WindowMatches | app/api/m/admin/hall-of-fame/route.ts:65-70 | every entry of a page is stored and matches |
| HallOfFameAdmin.Filtered | app/api/m/admin/hall-of-fame/route.ts:46-63 | an entry in the filtered multiset is stored and matches |
| HallOfFameAdmin.ListOrdered | app/api/m/admin/hall-of-fame/route.ts:65-70 | corrected paging (Paging.Page: a page that does not parse is 1, where the code as written gives NaN): a page is listed in the three-key order |
| HallOfFameAdmin.PublishedFilter | app/api/m/admin/hall-of-fame/route.ts:46-49 | "published" keeps only published entries, "unpublished" only others, and an empty query keeps everything |
| HallOfFameAdmin.ErrorStatus | app/api/m/admin/hall-of-fame/route.ts:82-150 | 403 exactly for a non-administrator, 400 for every other refusal |
| HallOfFameAdmin.Author | app/api/m/admin/hall-of-fame/route.ts:102-104 | the author is never empty: the user's name, else the user's id, else "admin" |
| HallOfFameAdmin.CreatedIff | app/api/m/admin/hall-of-fame/route.ts:108-169 | an admission is created exactly with school, major, student and description; a review exactly with name and content |
| HallOfFameAdmin.PostRefusals | app/api/m/admin/hall-of-fame/route.ts:82-98 | a non-administrator is refused first, then a body that is not JSON, then an unknown kind |
| HallOfFameAdmin.CreatedAdmission | app/api/m/admin/hall-of-fame/route.ts:123-138 | an admission holds its texts, the default badge when none is given, empty review fields and 5 stars |
| HallOfFameAdmin.CreatedReview | app/api/m/admin/hall-of-fame/route.ts:152-167 | a review holds its name and content, the default tag when none is given, the clamped stars and empty admission fields |
| HallOfFameAdmin.PostedEntry | app/api/m/admin/hall-of-fame/route.ts:100-146 | a posted entry is published unless the body says false, has 1 to 5 stars, an author, and sort order 0 for a non-number |
| HallOfFameAdmin.Create | app/api/m/admin/hall-of-fame/route.ts:108-169 | a refused entry is refused for a missing admission or review field |
| HallOfFameAdmin.CreateKeepsFields | app/api/m/admin/hall-of-fame/route.ts:108-169 | a created entry keeps the publication flag, sort order and author, and its stars are the given ones or 5 |
| Paging.ParamOr | app/api/m/admin/hall-of-fame/route.ts:42 | a missing or empty parameter is replaced by the fallback |
| Paging.PageAsWritten | app/api/m/admin/hall-of-fame/route.ts:42 | as written, the page is NaN exactly when the parameter does not parse as an integer, and otherwise at least 1 and at least the parsed number |
| Paging.PageAsWrittenNaN | app/api/m/orders/route.ts:18 | the page "abc" gives NaN |
| Paging.Page | app/api/m/admin/hall-of-fame/route.ts:42 | the page is at least 1, agrees with the code where that gives a number, and is 1 where it gives NaN |
| Paging.PageOfNumber | app/api/m/materials/route.ts:20 | a decimal page gives its number, and 0 gives 1 |
| Paging.TotalPage | app/api/consult/route.ts:99 | the page count covers the total with no page to spare |
| Paging.Window | app/api/m/orders/route.ts:30 | a page holds at most the page size, and its items are those from the page's offset on, in order |
| Paging.EveryItemOnItsPage | app/api/m/orders/route.ts:30-34 | every item appears on exactly its page, which is within the page count |
| Paging.WindowSorted | app/api/m/materials/route.ts:39 | a page of a sorted list is sorted |
| Paging.WindowFrom | app/api/consult/route.ts:91 | every item on a page comes from the list |
| Paging.WindowInOrder | app/api/m/admin/hall-of-fame/route.ts:66-69 | a page of an ordered list is ordered |
| Paging.PageDefaults | app/api/m/orders/route.ts:18 | a missing page and a page that does not parse give page 1 |
| Paging.PageOfHex | app/api/m/orders/route.ts:18 | the radix-less page "0x10" is 16, and 1 with radix 10 |
| Sorting.Insert | app/api/m/materials/route.ts:39 | insertion adds the item and nothing else |
| Sorting.SortBy | app/api/m/materials/route.ts:39 | sorting is a permutation |
| Sorting.SortBySorted | app/api/m/materials/route.ts:39 | the sorted list is in ascending order of the key |
| Sorting.InsertStable | app/api/m/admin/hall-of-fame/route.ts:67 | inserting an item ordered before all others keeps the list sorted by key, with ties in the earlier order |
| Sorting.SortByStable | app/api/m/admin/hall-of-fame/route.ts:67 | sorting an ordered list by a key gives the key's order with ties in the earlier order |
| MaterialCatalog.CategoryOf | scripts/migrateMaterialSourceCategory.ts:22-75 | a name gives the category it names, and nothing when it names none |
| MaterialCatalog.NormalizeSourceCategory | lib/material-display.ts:25-30 | a category name gives its category, and anything else school_exam |
| MaterialCatalog.NormalizeCategoryName | lib/material-display.ts:25-30 | a category's name normalizes back to it |
| MaterialCatalog.EbookTypeHintsAreLowered | lib/material-display.ts:42-45 | the lower-cased e-book types are e-book hints |
| MaterialCatalog.TypeListsDisjoint | scripts/migrateMaterialSourceCategory.ts:25-30 | no type is both a textbook and a reference type |
| MaterialCatalog.EbookTocIff | lib/material-display.ts:32-40 | a table of contents counts exactly when it is non-blank text or a list with a non-blank text item |
| MaterialCatalog.CurriculumOf | scripts/migrateMaterialCurriculum.ts:54-57 | a name gives the curriculum it names, and nothing when it names none |
| MaterialCatalog.CurriculumOfName | scripts/migrateMaterialCurriculum.ts:54-57 | a curriculum's name reads back as it |
| MaterialCatalog.FileTypeOf | lib/models/Material.ts:90 | a name gives the file type it names, and nothing when it names none |
| MaterialCatalog.AudienceOf | lib/models/Material.ts:91 | a name gives the audience it names, and nothing when it names none |
| MaterialCatalog.EntriesNonBlank | lib/material-display.ts:32-40 | a list table of contents is non-empty exactly when some entry is non-blank text |
| MaterialCatalog.TrimBlank | lib/material-display.ts:32-40 | a text table of contents is non-empty exactly when the text is not blank |
| ScriptArgs.FindPrefixed | scripts/migrateLegacyMaterials.ts:153 | the first argument with the prefix, and none only when no argument has it |
| ScriptArgs.IndexOfArg | scripts/migrateLegacyMaterials.ts:157 | the first position of the argument, or -1 exactly when it is absent |
| ScriptArgs.GetArgValue | scripts/migrateLegacyMaterials.ts:152-163 | a `name=value` argument wins, giving its trimmed value or nothing when blank; otherwise a value is the trimmed argument after the name, when that does not start with "--" |
| ScriptArgs.EqualsFormWins | scripts/auditMigratedData.ts:70-81 | the first `name=value` argument decides, wherever the bare name appears |
| ScriptArgs.FindPrefixedAfter | scripts/auditMigratedData.ts:71 | arguments without the prefix before the first one with it do not matter |
| ScriptArgs.ParsePositiveIntArg | scripts/migrateLegacyMaterials.ts:165-170 | the fallback or a positive number; a missing or empty value gives the fallback; a positive integer gives itself |
| ScriptArgs.ParsePositiveIntArgDigits | scripts/auditMigratedData.ts:89-94 | a positive decimal gives its number |
| ScriptArgs.SegmentEnd | scripts/migrateLegacyMaterials.ts:173 | a path segment runs to the next "/" or "?" or the end |
| ScriptArgs.FirstDbName | scripts/migrateLegacyMaterials.ts:173 | a database name found is non-empty and holds no "/" or "?" |
| ScriptArgs.ParseDbNameFromUri | scripts/migrateLegacyMaterials.ts:172-176 | the fallback when no segment ends the path, and otherwise a name without "/" or "?" |
| ScriptArgs.DbNameIsLastSegment | scripts/auditMigratedData.ts:83-87 | without a query the name found is the address's last segment |
| ScriptArgs.DbNameOfPlainUri | scripts/auditMigratedData.ts:83-87 | an address ending in "/name" gives that name |
| ScriptArgs.LimitArg | scripts/migrateMaterialSourceCategory.ts:36-39 | without a `--limit=` argument the limit is 0 |
| ScriptArgs.LimitArgDigits | scripts/migrateMaterialCurriculum.ts:37-40 | `--limit=n` gives n |
| ScriptArgs.SplitNoSeparator | scripts/migrateMaterialCurriculum.ts:39 | text without the separator splits into itself alone |
| ScriptArgs.Limited | scripts/migrateMaterialSourceCategory.ts:159 | limit 0 keeps every document; otherwise the first documents up to the limit |
| ScriptArgs.ToInt | scripts/migrateLegacyMaterials.ts:178-185 | a finite number is truncated; integer text gives its number; other values the fallback |
| ScriptArgs.ToNonNegativeInt | scripts/migrateLegacyMaterials.ts:187-190 | the fallback or a non-negative number, the integer when it is not negative |
| ScriptArgs.AuditNonNegativeInt | scripts/auditMigratedData.ts:96-105 | the fallback or a non-negative number; a finite non-negative number is truncated, a negative one gives the fallback |
| ScriptArgs.NonNegativeReadersAgree | scripts/auditMigratedData.ts:96-105 | the two scripts' readers agree except on numbers strictly between -1 and 0 |
| ScriptArgs.NonNegativeReadersDiffer | scripts/migrateLegacyMaterials.ts:187-190 | on -0.5 the migration reads 0 and the audit the fallback |
| ScriptArgs.EnvValue | scripts/migrateLegacyMaterials.ts:282-283 | a variable counts exactly when it is set and not empty |
| ScriptArgs.FirstText | scripts/migrateLegacyMaterials.ts:280-296 | the first non-empty option, or the fallback when all are empty |
| ScriptArgs.FollowingArg | scripts/migrateLegacyMaterials.ts:157-161 | a value follows the first bare name exactly when the next argument is non-empty and not an option, and it is that argument trimmed |
| ScriptArgs.FollowingValueFound | scripts/migrateLegacyMaterials.ts:152-163 | with no `name=` argument, a usable argument after the first bare name is the value, trimmed |
| SeedHallOfFame.ClampReviewStars | scripts/seedHallOfFame.ts:68-72 | stars are between 1 and 5 |
| SeedHallOfFame.ClampReviewStarsCases | scripts/seedHallOfFame.ts:68-72 | a non-number gives 5; a number is rounded and clamped to between 1 and 5 |
| SeedHallOfFame.ClampStoredStars | scripts/seedHallOfFame.ts:68-72 | stars 1 to 5 are kept |
| SeedHallOfFame.AdmissionKeyInjective | scripts/seedHallOfFame.ts:109-114 | admission keys are equal exactly when school, major and student are, when school and major hold no bar character |
| SeedHallOfFame.ReviewKeyInjective | scripts/seedHallOfFame.ts:113 | review keys are equal exactly when name and content are, when the name holds no bar character |
| SeedHallOfFame.SeedKeyInjective | scripts/seedHallOfFame.ts:109-114 | seed keys are equal exactly when the kinds and the kind's texts are |
| SeedHallOfFame.AdmissionItems | scripts/seedHallOfFame.ts:120-135 | one item per default admission, in order |
| SeedHallOfFame.ReviewItems | scripts/seedHallOfFame.ts:137-152 | one item per default review, in order |
| SeedHallOfFame.AdmissionsFirst | scripts/seedHallOfFame.ts:116-155 | admissions come first, with sort orders 10, 20, ..., their trimmed texts, empty review fields and 5 stars |
| SeedHallOfFame.ReviewsAfter | scripts/seedHallOfFame.ts:137-155 | reviews follow, with sort orders from 10, their trimmed texts, clamped stars and empty admission fields |
| SeedHallOfFame.SeedItemsWellFormed | scripts/seedHallOfFame.ts:116-155 | every item is trimmed, has 1 to 5 stars, the chosen visibility, the seed author and a badge or tag |
| SeedHallOfFame.AdmissionBadge | scripts/seedHallOfFame.ts:130 | the badge is the given one or the default |
| SeedHallOfFame.ReviewTag | scripts/seedHallOfFame.ts:150 | the tag is the given one or the default |
| SeedHallOfFame.ReviewTextTrimmed | scripts/seedHallOfFame.ts:147-150 | a review's texts are trimmed |
| SeedHallOfFame.WrittenKey | scripts/seedHallOfFame.ts:275-293 | a written document has the item's key |
| SeedHallOfFame.WrittenNotDiffers | scripts/seedHallOfFame.ts:157-293 | a document written from an item does not differ from it |
| SeedHallOfFame.GroupedFind | scripts/seedHallOfFame.ts:238-250 | the group of a key holds exactly the documents with that key, in order |
| SeedHallOfFame.GroupedDistinct | scripts/seedHallOfFame.ts:238-250 | each key has one group |
| SeedHallOfFame.GroupExisting | scripts/seedHallOfFame.ts:238-250 | the loop builds the groups |
| SeedHallOfFame.DuplicateKeys | scripts/seedHallOfFame.ts:252 | exactly the groups with more than one document |
| SeedHallOfFame.DuplicateKeysExact | scripts/seedHallOfFame.ts:252 | a key is reported exactly when more than one document has it |
| SeedHallOfFame.ClassifyExisting | scripts/seedHallOfFame.ts:259-268 | an item is inserted exactly when no document has its key, and otherwise updated exactly when the first such document differs |
| SeedHallOfFame.CountsPartition | scripts/seedHallOfFame.ts:254-268 | inserts, updates and skips add up to the number of items |
| SeedHallOfFame.AllInsertsWhenEmpty | scripts/seedHallOfFame.ts:259-262 | on an empty collection every item is an insert |
| SeedHallOfFame.UpsertOf | scripts/seedHallOfFame.ts:270-273 | the upsert filter starts with the item's kind |
| SeedHallOfFame.FirstMatching | scripts/seedHallOfFame.ts:275-300 | the first document the filter matches, and none only when it matches none |
| SeedHallOfFame.UpsertDuplicatesKindlessEntry | scripts/seedHallOfFame.ts:240-273 | a stored admission without a kind is counted as unchanged, yet the upsert, whose filter names the kind, inserts a second copy |
| SeedHallOfFame.PutFirstSelect | scripts/seedHallOfFame.ts:275-300 | writing by key leaves one or the same number of documents with the key, the first of them written |
| SeedHallOfFame.ApplyWriteKeepsOne | scripts/seedHallOfFame.ts:275-300 | a write keyed like the grouping never adds a second document with the key |
| SeedHallOfFame.ApplyWriteThenSkip | scripts/seedHallOfFame.ts:254-300 | after such a write the item is skipped: running the seed again changes nothing |
| SeedHallOfFame.ClassifyAll | scripts/seedHallOfFame.ts:254-302 | the counts of inserts, updates and skips, and with apply one write per item |
| SeedHallOfFame.MissingEntryIds | scripts/seedHallOfFame.ts:192-201 | the number of documents without an entry id is at most the number of documents |
| SeedHallOfFame.Run | scripts/seedHallOfFame.ts:188-302 | the report counts missing entry ids, backfills them only with apply, classifies every item against the grouped documents, writes only with apply, and lists the duplicate keys |
| UserSkillModel.Ratings | lib/models/UserSkill.ts:78 | the ratings of the topics, in order |
| UserSkillModel.OverallBetween | lib/models/UserSkill.ts:77-83 | the overall rating (1000 without topics, else the rounded mean) lies within any bounds holding every rating and 1000 |
| UserSkillModel.OverallOfEqual | lib/models/UserSkill.ts:80-81 | equal ratings have that rating as mean |
| UserSkillModel.UserSkill.GetTopicSkill | lib/models/UserSkill.ts:73-75 | a stored topic's skill, or rating 1000 with no attempts for a new topic |
| UserSkillModel.UserSkill.RecalcOverall | lib/models/UserSkill.ts:77-83 | without topics 1000 is returned and nothing stored; otherwise the rounded mean is stored and returned; the topics and totals do not change |
| Recommendation.Clamp | lib/recommendation.ts:30 | the clamped rating lies in [100, 2000] and a rating already there is kept |
| Recommendation.UpdateRating | lib/recommendation.ts:23-31 | the new rating is in [100, 2000], moves by at most 32 from a rating in range, up for easy or normal and down for hard |
| Recommendation.UpdateMaterialRating | lib/recommendation.ts:98-103 | the material's rating is in [100, 2000], moves by at most 8, down when the student found it easy or normal and up when hard |
| Recommendation.RatingToLevel | lib/recommendation.ts:39-46 | the star is between 0 and 5 |
| Recommendation.StarThresholds | lib/recommendation.ts:39-46 | at least k stars exactly from rating 500 + 200k on |
| Recommendation.StarMonotone | lib/recommendation.ts:39-46 | a higher rating never has fewer stars |
| Recommendation.TopicKey | lib/recommendation.ts:72 | the key is the topic or the subject, the topic whenever it is given, and empty only when both are |
| Recommendation.ProcessFeedback | lib/recommendation.ts:53-133 | a missing material and a second feedback on the same material are refused; otherwise feedback succeeds with both new ratings in [100, 2000] |
| Recommendation.UndoFeedback | lib/recommendation.ts:138-189 | without a skill document or a record for the material undo fails; otherwise the material's rating before the feedback is returned |
| Recommendation.FeedbackCounters | lib/recommendation.ts:74-129 | the topic's attempts and the total grow by 1, correct counters by 1 exactly for a correct answer, the topic rating is updated, other topics are untouched and the record is kept |
| Recommendation.UndoCounters | lib/recommendation.ts:155-183 | undo removes the record, lowers the counters without going below 0, restores the topic's rating before and leaves other topics and records alone |
| Recommendation.RestoredCounters | lib/recommendation.ts:160-181 | restoring lowers counters without going below 0 and leaves other topics and records alone |
| Recommendation.EmptyDocValid | lib/models/UserSkill.ts:64-68 | the empty skill document satisfies the invariant |
| Recommendation.ValidOverallInRange | lib/recommendation.ts:91-93 | a valid document's overall rating is in [100, 2000] |
| Recommendation.ProcessKeepsValid | lib/recommendation.ts:53-133 | feedback keeps the invariant: distinct keys, ratings in range, counters not negative, records naming existing topics, overall the rounded mean |
| Recommendation.UndoKeepsValid | lib/recommendation.ts:138-189 | undo keeps the invariant, and the record's topic exists |
| Recommendation.UndoAfterProcess | lib/recommendation.ts:53-189 | feedback then undo restores the material's rating, the history, the totals and the topic's skill, and the whole document when the topic existed |
| Recommendation.RestoredAfterApplied | lib/recommendation.ts:83-181 | restoring after applying gives the old history, totals and topic skill |
| Recommendation.ScoreBound | lib/recommendation.ts:234-239 | a score is at most twice the weakness, reached exactly at the target difficulty |
| Recommendation.ScoreNearer | lib/recommendation.ts:234-239 | within a topic, a higher score means a difficulty nearer the target |
| Recommendation.Window | lib/recommendation.ts:218-224 | every candidate is within 350 of the overall rating, and there are no more than the catalog holds |
| Recommendation.WindowComplete | lib/recommendation.ts:218-224 | a material is a candidate exactly when it is in the catalog and within 350 of the overall rating; the candidates are a sub-multiset of the catalog, and none only when no material is that near |
| Recommendation.CursorLimit | lib/recommendation.ts:224 | limit 0 keeps everything; otherwise the first items up to the absolute limit |
| Recommendation.GreedyBounds | lib/recommendation.ts:246-257 | the selection holds at most two materials per topic, all from the ranked list |
| Recommendation.GreedyComplete | lib/recommendation.ts:246-257 | when the selection is not full, every topic has min(2, its count) materials in it |
| Recommendation.GreedySorted | lib/recommendation.ts:241-257 | the selection keeps the ranked order |
| Recommendation.SelectDiverse | lib/recommendation.ts:243-259 | the loop with its topic counts and break selects the greedy choice |
| Recommendation.ByDifficulty | lib/recommendation.ts:226-230 | the fallback order is a permutation sorted by difficulty |
| Recommendation.RecommendNear | lib/recommendation.ts:194-260 | with nearby materials the answer is the greedy pass over the first 100 candidates ranked by score: at most the limit, at most two per topic, best score first, all within 350 of the overall rating; short of the limit every candidate topic has two (or all it has), and a positive limit never gives an empty answer |
| Recommendation.GreedyCovers | lib/recommendation.ts:240-256 | short of the limit, the greedy pass over a reordering of the candidates holds two of each topic or all of them, and is not empty |
| Recommendation.KeyCountPerm | lib/recommendation.ts:240-256 | the per-topic count does not depend on the order of the materials |
| Recommendation.RecommendFallback | lib/recommendation.ts:226-231 | without nearby materials: the easiest materials of the catalog, up to the limit, in difficulty order |
| MigrateLegacy.NormalizeLegacyFileName | scripts/migrateLegacyMaterials.ts:201-208 | a file name is kept, trimmed, exactly when it is non-empty text with a pdf, hwp or hwpx extension in any case |
| MigrateLegacy.LegacyFileNameIdempotent | scripts/migrateLegacyMaterials.ts:201-208 | a kept name is kept again unchanged |
| MigrateLegacy.TrimmedTexts | scripts/migrateLegacyMaterials.ts:213-214 | the entries kept are trimmed and non-empty |
| MigrateLegacy.Take | scripts/migrateLegacyMaterials.ts:215 | the first entries, up to the count |
| MigrateLegacy.NormalizeEbookToc | scripts/migrateLegacyMaterials.ts:210-226 | at most 50 trimmed non-empty entries, and none for a value that is neither a list nor text |
| MigrateLegacy.StringItemsOfTexts | scripts/migrateLegacyMaterials.ts:212 | the texts of a list of texts are the texts |
| MigrateLegacy.EbookTocIdempotent | scripts/migrateLegacyMaterials.ts:210-226 | normalizing a normalized table of contents changes nothing |
| MigrateLegacy.TrimmedItemsNonEmpty | scripts/migrateLegacyMaterials.ts:211-215 | a list gives entries exactly when one of its items is non-blank text |
| MigrateLegacy.TrimmedLinesNonEmpty | scripts/migrateLegacyMaterials.ts:217-222 | text gives entries exactly when it is not blank |
| MigrateLegacy.EbookTocNonEmptyIff | scripts/migrateLegacyMaterials.ts:210-226 | the migrated table of contents is non-empty exactly when the display library counts it as present |
| MigrateLegacy.InferFileType | scripts/migrateLegacyMaterials.ts:228-247 | a valid stored file type, in any case, is kept; otherwise both for pdf and hwp files, hwp for hwp alone, and pdf else |
| MigrateLegacy.NormalizeTargetAudience | scripts/migrateLegacyMaterials.ts:249-256 | a valid stored audience is kept; otherwise teacher exactly for hwp files |
| MigrateLegacy.NormalizeCurriculum | scripts/migrateLegacyMaterials.ts:258-269 | an e-book is revised_2022; otherwise a valid stored curriculum, else the subject's curriculum |
| MigrateLegacy.CurriculumIdempotent | scripts/migrateLegacyMaterials.ts:258-269 | storing the result and normalizing again gives it back |
| MigrateLegacy.ParseConfig | scripts/migrateLegacyMaterials.ts:280-312 | each flag is set exactly when given; the sample size is positive; addresses and collections are never empty; a given address or database wins |
| MigrateLegacy.DefaultConfig | scripts/migrateLegacyMaterials.ts:280-312 | without arguments or variables the defaults are used |
| MigrateLegacy.MaterialIdOf | scripts/migrateLegacyMaterials.ts:429-433 | the id is never empty: the stored one, or "legacy-" and a random id when blank |
| MigrateLegacy.CheckFile | scripts/migrateLegacyMaterials.ts:438-455 | a file is kept only when valid and, in strict mode, present; an invalid extension and a missing file are counted exactly then; each given file has one outcome |
| MigrateLegacy.NormalizedType | scripts/migrateLegacyMaterials.ts:435 | the type is trimmed and non-empty |
| MigrateLegacy.DifficultyOf | scripts/migrateLegacyMaterials.ts:478-479 | the difficulty is 1 to 5: the stored one in range, else 3 |
| MigrateLegacy.RatingOfDifficulty | scripts/migrateLegacyMaterials.ts:43-49 | the default rating of a difficulty, and 1000 outside 1 to 5 |
| MigrateLegacy.GradingOf | scripts/migrateLegacyMaterials.ts:478-485 | the rating is a stored one between 100 and 3000, else the difficulty's default |
| MigrateLegacy.DefaultRatingIncreases | scripts/migrateLegacyMaterials.ts:43-49 | a harder difficulty has a higher default rating |
| MigrateLegacy.PricingOf | scripts/migrateLegacyMaterials.ts:487-491 | prices are not negative; a material is free when marked free or both prices are 0, and then both are 0; otherwise it keeps its prices, one of them positive |
| MigrateLegacy.SchoolOf | scripts/migrateLegacyMaterials.ts:493-506 | an e-book has no school level, grade, semester or period; others have them at least 1; only a school exam keeps school and region; the year is at least 2000 |
| MigrateLegacy.ContentOf | scripts/migrateLegacyMaterials.ts:508-514 | an e-book's subject is the e-book word and it keeps description and contents, titled by its book title or topic; others keep subject and title and drop the e-book fields |
| MigrateLegacy.PreviewsOf | scripts/migrateLegacyMaterials.ts:525-534 | at most two trimmed previews, and none unless kept |
| MigrateLegacy.PageCountOf | scripts/migrateLegacyMaterials.ts:520-523 | the stored count, or the count computed for the problem file |
| MigrateLegacy.Convert | scripts/migrateLegacyMaterials.ts:426-574 | a converted material has its id, generated exactly for a blank id, at most one outcome per file, the resolved category, type and content, and its creation and update times |
| MigrateLegacy.ConvertedCategoryStable | scripts/migrateLegacyMaterials.ts:457-574 | the stored material resolves again to the category it was stored with |
| MigrateLegacy.TallyBounds | scripts/migrateLegacyMaterials.ts:426-534 | every scanned material is converted; file counts add up to at most the scanned; previews are reset for every material unless kept |
| MigrateLegacy.ConversionsOutcomes | scripts/migrateLegacyMaterials.ts:438-455 | every conversion has at most one outcome per file |
| MigrateLegacy.GeneratedCount | scripts/migrateLegacyMaterials.ts:429-433 | the generated-id count is the number of blank ids |
| MigrateLegacy.GeneratedIdOfLast | scripts/migrateLegacyMaterials.ts:429-433 | a blank id is replaced by the prefix and the random id drawn at that point |
| MigrateLegacy.Samples | scripts/migrateLegacyMaterials.ts:576-585 | the samples are the first conversions, up to the sample size |
| MigrateLegacy.Operations | scripts/migrateLegacyMaterials.ts:587-598 | one upsert per conversion, keyed by its id, setting its fields and, on insert only, its creation time |
| MigrateLegacy.Run | scripts/migrateLegacyMaterials.ts:335-614 | the report tallies the conversions of the limited scan, holds their samples, writes their upserts only with apply, in batches of 250 |
| MigrateLegacy.ScanAll | scripts/migrateLegacyMaterials.ts:426-606 | the loop tallies, samples and pushes every conversion |
| MigrateLegacy.Scan | scripts/migrateLegacyMaterials.ts:426-606 | one material is converted, tallied, sampled and, with apply, pushed |
| MigrateLegacy.LocationsOf | scripts/migrateLegacyMaterials.ts:280-296 | both addresses are non-empty; a non-empty `--source-uri` and `--target-db` win |
| MigrateLegacy.CreatedAtOf | scripts/migrateLegacyMaterials.ts:516 | the stored creation date when it reads as a date, else the time of the run |
| MigrateLegacy.UpdatedAtOf | scripts/migrateLegacyMaterials.ts:517 | the stored update date when it reads as a date, else the creation time |
| MigrateLegacy.TimestampFallbacks | scripts/migrateLegacyMaterials.ts:516-517 | without a readable update date the update time is the creation time, and without either date both are the time of the run |
| MigrateLegacy.Record | scripts/migrateLegacyMaterials.ts:575-585 | the counters and samples after one more conversion are the tally and samples of all conversions so far |
| MigrateLegacy.Emit | scripts/migrateLegacyMaterials.ts:587-598 | when applying, one more conversion queues its upsert; otherwise nothing is queued |
| AuditMigrated.ParseConfig | scripts/auditMigratedData.ts:107-121 | every field is set (uri, database, collection non-empty, sample size positive); `--uri` and `--db` win when given; the file check is skipped exactly when the flag is present; the output file is the `--out` value |
| AuditMigrated.DefaultConfig | scripts/auditMigratedData.ts:107-121 | with no arguments and no environment: the local URI, database `dre-edu`, collection `materials`, 20 samples, file check on, no output file |
| AuditMigrated.SampleBucket.Push | scripts/auditMigratedData.ts:136-140 | a value is appended to its key's list only while the list is below the limit; other keys are unchanged; no list grows past the limit |
| AuditMigrated.PreviewsOf | scripts/auditMigratedData.ts:261-263 | only trimmed, non-empty text entries are kept; a value that is not an array gives none |
| AuditMigrated.MissingCount | scripts/auditMigratedData.ts:288-295 | the broken preview count is at most the number of previews, and zero exactly when every preview exists |
| AuditMigrated.FindingsOf | scripts/auditMigratedData.ts:204-299 | with the file check skipped no file reference is ever reported broken; broken previews never exceed the previews |
| AuditMigrated.PriceFindingsExclusive | scripts/auditMigratedData.ts:249-259 | a free material with a positive price is a mismatch, a paid one with both prices zero is a zero-price finding, and no material is both |
| AuditMigrated.FindingsScope | scripts/auditMigratedData.ts:237-299 | a missing school name is reported only for school exams; a file reference is broken exactly when the check runs, the name is set and the file is absent; a preview finding exactly when the check runs and some preview is absent |
| AuditMigrated.TallyBounds | scripts/auditMigratedData.ts:202-300 | the total is the number of documents; every per-document counter is at most the total; missing school names at most the school exams; broken-preview documents at most broken preview files; skipping the file check leaves the file counters at zero |
| AuditMigrated.DistributionsTotal | scripts/auditMigratedData.ts:211-212 | both distributions (by source category and by file type, blank as `(empty)`) add up to the number of documents |
| AuditMigrated.Run | scripts/auditMigratedData.ts:181-300 | the report's counters are the tally of all documents, its distributions are the two counts, and no sample list exceeds the sample size |
| AuditMigrated.AuditOne | scripts/auditMigratedData.ts:203-299 | one document adds its findings to the counters and keeps the sample lists within the limit |
| AuditMigrated.CountMissing | scripts/auditMigratedData.ts:288-295 | the loop over the previews counts exactly the absent ones |
| AuditMigrated.MigratedEnumsValid | scripts/auditMigratedData.ts:214-229 | a document written by the legacy migration never has an invalid source category, curriculum, file type or audience |
| AuditMigrated.MigratedPricesConsistent | scripts/auditMigratedData.ts:249-259 | prices set as the legacy migration sets them (free means both zero, paid means a positive sum) raise no price finding |
| AuditMigrated.StoredPrice | scripts/auditMigratedData.ts:96-105 | a stored non-negative whole price reads back as itself |
| AuditMigrated.First | scripts/auditMigratedData.ts:136-140 | a sample list is a prefix of what was noted, no longer than the limit, and all of it when that fits |
| AuditMigrated.SampledSnoc | scripts/auditMigratedData.ts:136-140 | noting one more value adds it to its key's list only while the list is below the limit, and leaves the other keys alone |
| AuditMigrated.MatchWithin | scripts/auditMigratedData.ts:136-140 | lists that sample the notes are within the limit |
| AuditMigrated.PushIf | scripts/auditMigratedData.ts:136-140 | a finding, when present, is noted under its key; the lists still sample the notes |
| AuditMigrated.CheckFiles | scripts/auditMigratedData.ts:265-299 | the file checks of one document note its broken problem and extra file references with the id and file name, and the id when a preview is broken |

## Left out

- The database, the file system, child processes (LibreOffice, pdftoppm, pdfinfo, unzip), password and token hashing, the clock and random ids are all parameters. A lookup's result, a tool's output, a hash function, `now` or a generated id is passed in. Timeouts of the child processes are not modelled.
- React rendering, navigation, alerts and toasts are left out. For the client components (sign-up form, coaching form), only the checks, the state updates and the posted request are modelled.
- JavaScript strings are UTF-16 code units. The model treats them as sequences of characters. No surrogate pair or Unicode normalisation is modelled.
- JsText.ToLower: only ASCII letters are lowered. The Korean text the site handles has no case, but other non-ASCII letters would be lowered by JavaScript.
- Filter: the hall-of-fame search text `q` goes into `$regex` unescaped. HallOfFameAdmin.Mentions models it as a case-insensitive substring match. So a query with regular-expression metacharacters differs from the source: "a.c" matches "abc" there, and "(" makes the database throw and the handler answer 500.
- The consultation listing's `$regex` search over name, phone and message runs in the database and is not modelled. Its type, status and page filters are.
- Database sort order among equal keys and the database-side sort of the community-product listing are not modelled. The listing takes the sorted documents as given.
- Request bodies. The consultation, sign-up, profile, order and broadcast handlers take the body as unparsable text or any JSON value. They model the 400 for unparsable text and the 500 that a `null` body or a non-text field cast causes.
- The hall-of-fame, community-product and community-order POSTs take either an unparsable body (`None`) or an object's fields. A `null` JSON body, which throws when a field is read (a 500), is not modelled there. A number, text or array body reads every field as `undefined`, which the model gives as an object with no fields.
- The materials POST starts from the fields of the body, so the 500 that an unparsable body causes is not modelled. The same holds for the password-reset confirmation, including the 500 for a `null` body.
- Materials.Post: of the schema's checks, only the difficulty range (1 to 5) is modelled, as `Invalid`. A `type`, `subject` or other text field sent as an object or array fails Mongoose's cast and the create answers 500; the model stores the value as sent.
- The profile GET handler only reads the user back and is not modelled. The PATCH handler is.
- The Kakao chatbot's reply texts are modelled by their kind only, not their Korean wording.
- KakaoWebhook.HandleScheduled is given the name, phone and message already trimmed. The trimming is proved separately for the values the handler reads.
- KakaoWebhook.Post: the params are a map of text. A `null` JSON body makes `body.action?.params` throw outside every try (a 500), and a param that is a number or an object makes `.trim()` throw inside the action's try, which answers the generic error reply. Neither is modelled.
- `User.findById` with an id that is not a valid ObjectId throws in the database driver. The model treats such an id as one that names no user.
- The bcrypt pre-save hook of the user model is outside the model. The stored password is the one handed to save.
- The verification-token hash and expiry that sign-up stores are left out of `Signup.NewUser`. The verification link is modelled by `VerifyEmail`.
- lib/hall-of-fame.ts is not part of this model. `clampReviewStars` is taken from the copy in scripts/seedHallOfFame.ts.
- `getMaterialSubjectFilterCandidates` and `resolveMaterialCurriculumFromSubject` from lib/constants/material.ts are not part of this model. They are function parameters with no assumed behaviour.
- Recommendation.ProcessFeedback: the expected probability `1 / (1 + 10^((b - a) / 400))` is floating point. It is a parameter `p` in [0, 1], and stored ratings are whole numbers, as the source rounds them.
- `getCollaborativeRecs` and `getSimilarUserRecs` in lib/recommendation.ts are database aggregations and are not modelled.
- Console logging, the report file and the matched and modified counts that `bulkWrite` returns are not modelled. The scripts' summary counters are.
- ScriptArgs.ParseDbNameFromUri: the percent-decoding of the database name is left out.
- `process.env` is a map parameter, and `process.argv` a sequence parameter.
- The duplicate-materialId aggregation of the audit script runs inside the database and is not modelled.
- Floating point: JavaScript numbers are modelled as exact rationals with NaN and the two infinities. A value that `Number` reads from text and whose magnitude rounds past the largest double (about 1.8e308) overflows to an infinity, as in the source (JsCore.Rounded). `parseInt` is not bounded in the model: see the ParseIntText and ParseIntAuto lines. The rounding of values to the nearest double, for example above 2^53, is not modelled.
- ParseIntText: `parseInt(s, 10)` of a run of more than about 309 digits is Infinity in the source. The model returns the exact integer.
- ParseIntAuto: `parseInt(s)` likewise gives Infinity for a run of more than about 309 digits, where the model returns the exact integer. So a page, a difficulty or a price sent as such a run is read as a huge number rather than Infinity.
- GetAppBaseUrl: the `new URL(...)` parse of the configured address is a parameter, `configuredHost`, returning the host or nothing when it does not parse. URL parsing itself is not modelled.
- ApplicationType: the action lookup is a plain-object lookup in the source, so an inherited key such as "toString" is truthy there. The model looks up only the table's own keys.
- SortNames: `?sort=toString` or `?sort=constructor` hits an inherited key of the sort table in the source, and the database then rejects the sort. The model treats every name outside the table as newest first.
- AllowedExtensions: a file role such as "toString" reads an inherited function from the extension table in the source, and `.includes` on it throws, answering 500. The model gives such a role no allowed extension, and so BadExtension.
- DistributionsTotal: the audit's counters are plain objects. A category or file type named "toString" or "constructor" starts from the inherited function and is concatenated onto it, and "__proto__" is lost. The model counts every name as an ordinary key.
- FeedbackCounters: a topic named after an inherited key such as "constructor" reads a function in the source and rates it as NaN. A topic containing '.' becomes a nested path in the `$set`. The model treats every topic as an ordinary key.
- Corrected definitions. Some route-level rows are stated for the corrected definitions of the Findings below, not for the code as written. Consult.List, Consult.ListPageOf, Orders.ListShowsOwnOrders, Orders.ListRoute, Materials.ListMatches, HallOfFameAdmin.ListMatches and HallOfFameAdmin.ListOrdered read the page through Paging.Page. Signup.Signup checks the password through Signup.Validate, and PasswordReset.ConfirmReset through PasswordReset.Confirm. Materials.Post and Materials.CreatedMaterial use Materials.Rating. The code as written is modelled by the as-written members named in the Findings table.
- SelectDiverse: the per-topic counter of `getRecommendations` is a plain object. A topic named after an inherited key such as "constructor" reads a function as its count, so `cnt < 2` is false and no material of that topic is chosen. The model counts every topic as an ordinary key.
- BuildAppUrl: the WHATWG URL parser normalises the path (`.` and `..` segments, backslashes, percent-encoding). The model appends the path to the origin as given.
- Upload.StoredIff: a failure of `mkdir` or `writeFile` is caught and answered 500 with its message. The model takes the write to succeed.
- GeneratePreview: the `mkdir` and `mkdtemp` calls at lib/generatePreview.ts:341-344 are outside the try. A failure there throws out of `generatePreview` and makes the upload answer 500, instead of giving no previews. The model takes these calls to succeed.
- ProcessFeedback: the "once per material" check reads the feedback record and writes it in a later separate update. Two concurrent posts for the same material can therefore both be counted. The model runs one request at a time.
- JSON objects with a repeated key: `JSON.parse` keeps the last value, while the model's field lookup takes the first. Bodies are assumed to have distinct keys.
- MongooseText: text, booleans and whole numbers of magnitude below 10^21 are given their text form, negative ones included. Fractional numbers, numbers of magnitude 10^21 or more, NaN and the infinities, which Mongoose stores as text such as "1.5" or "1e+21", are given none.
- PageCountOf: the page-count function's "nothing" stands for every falsy count the source's `|| 0` replaces: `null`, NaN and 0.
- MigrateLegacy: `new Date()` is one `now` per run, a field of the host, and `toDate` is a host parameter. Date parsing is not modelled. The `$setOnInsert` creation time is part of each upsert (MigrateLegacy.Upsert).

## Findings

| source | as written | input that shows it | evidently intended | confidence | as-written member | corrected member |
|---|---|---|---|---|---|---|
| app/api/m/orders/route.ts:18 | `Math.max(1, parseInt(page))` is NaN when the page parameter does not parse as an integer. The same line is in the materials, consultation and hall-of-fame listings. The skip and the answered page are then NaN. | `?page=abc` | page 1, as the neighbouring `limit` parameter falls back when `Number.isFinite` fails | not executed | Paging.PageAsWrittenNaN | Paging.Page |
| app/api/m/materials/route.ts:66-68 | a truthy `difficultyRating` that does not parse as an integer is passed through `Math.max(100, NaN)` and `Math.min(2000, NaN)`, so the rating is NaN. The number cast of `Material.create` rejects it, and the handler, which has no try, answers 500 | `difficultyRating: "hard"` | a rating between 100 and 2000: the clamped number, or the difficulty's table value | not executed | Materials.RatingAsWrittenNaN | Materials.Rating |
| app/api/m/auth/password-reset/confirm/route.ts:13 | `newPassword.length < 8` is the only length check. A number has no `length`, so a numeric password passes it and is saved as its digits. | `newPassword: 12` | a password of fewer than 8 characters is refused, whatever its JSON type | not executed | PasswordReset.NumericPasswordAsWritten | PasswordReset.ResetIff |
| app/api/m/auth/signup/route.ts:99 | `password.length < 6` is checked on the raw body value. A numeric password has no `length`, passes, and is stored as its digits. | `password: 12` | a password of fewer than 6 characters is refused | not executed | Signup.NumericPasswordAsWritten | Signup.Validate |
| scripts/seedHallOfFame.ts:240-273 | stored entries are grouped by a key that treats a missing `kind` as an admission, but the upsert filter asks for `kind: 'admission'`. An entry stored without a `kind` is reported as a skip, and the write inserts a second entry with the same key. | a stored admission with no `kind` field, and the same seed admission | the write updates the entry the dry run compared with, so that there is never a second entry with the key | not executed | SeedHallOfFame.UpsertDuplicatesKindlessEntry | SeedHallOfFame.ApplyWriteKeepsOne |
