# Resource-name permissions in Dafny

A model of the matching and delegation engine of `resource-name-permissions`,
a small authorization library. A permission is a string
`<identifier>:<privileges>`:

- the identifier is a glob over `/`- and `:`-separated segments, in which
  `*` is a single-segment wildcard and a delimiter-bounded `**` is a
  globstar;
- the privileges are a bitmask, written as a number or as a comma list of
  names taken from a configuration registry.

The model covers four parts of the library.

- `globtoregex.dfy` (module `GlobToRegex`) models the glob compiler.
  - The compiler loop (`Compile`) emits a sequence of pieces: a literal, a
    single-segment wildcard or a globstar. It does not build a regular
    expression.
  - `Matches` states directly what the anchored regular expression made of
    those pieces accepts.
- `rnpermission.dfy` (module `RNPermission`) models a single permission.
  - The permission itself is the value `Perm`. The pure queries on it
    (`hasPrivilege`, `matchPrivileges`, `matchIdentifier`, `allows`,
    `grantPrivileges`, `grantsAllowed`, `mayGrant`, `mayRevoke`,
    `_areLesserPrivileges`) are functions of that value.
  - The object is `class Permission`. Its setters update the `identifier`
    and `privileges` fields in place.
  - Exceptions are `Err` results.
- `rnpermissions.dfy` (module `RNPermissions`) models a permission set.
  - `class PermissionSet` holds a list of `Permission` objects.
  - Its `allows` clears the bits of fresh request copies in a `while` loop.
  - `mayGrant` and `mayRevoke` ask each held permission in turn.
- `validate.dfy` (module `Validate`) models the permission-string validator.
  It is a chain of early-return checks.

Supporting modules:

- `jsstring.dfy` (module `JsString`) holds the JavaScript string built-ins
  the code relies on: `lastIndexOf`, `split`, `join`, `parseInt`, and
  decimal printing.
- `bits.dfy` (module `Bits`) defines `|`, `&` and `& ~` bit by bit on
  non-negative integers.
- `configuration.dfy` (module `Configuration`) holds the configuration
  registry and the OR folds.

## Where the code differs from its documented intent

The model follows the code in each of these places.

- **Delimiters.** The permission parser and `toString` use `:`
  (`src/RNPermission.js:147`, `:293`). The validator splits at the last `?`
  (`src/validate.js:43`). Each component keeps its own delimiter.
- **Globstar before end.** The `/` before a trailing globstar is a literal,
  so `article/**` does not accept `article` (`ArticleGlobstarRejects`). It
  accepts every candidate that starts with `article/` (`TrailingGlobstar`).
- **`matchPrivileges` and `hasPrivilege`.** They test `q <= h && (h & q) != 0`.
  That is a numeric comparison plus an overlap, not a sub-mask test
  (`MatchPrivilegesNotSubMask`).
- **`_areLesserPrivileges` precedence.** Its two `a & b === 0` tests parse
  as `a & (b === 0)`, so both `&` disjuncts are dead. They are modelled as
  written (`GrantRefused`, `GranteeRefused`).
  - `RefusalEffective` proves that only the numeric comparisons remain.
  - So a grantor may grant a mask that is not a sub-mask of its
    `grantsAllowed()`: 3 against 4.
- **Validator versus parser.**
  - The validator accepts numbers in `[min, 2 * max)` and mixed
    number/name lists. The parser accepts only `[1, max]`, and numbers
    only on their own (`NumberAboveMaximum`, `MixedTokensRefused`).
  - The validator accepts names whose value is 0, which the parser
    refuses.
- **Self-allowance.** A permission with privileges is described as
  allowing itself. That holds only when every run of two or more stars is
  a delimiter-bounded `**` (`AllowsSelf`). `a**b` compiles to a
  single-segment wildcard that refuses `**` (`src/globToRegex.js:53-56`),
  so it does not accept itself (`NoSelfMatchUnbounded`).
- **Empty identifier.** The identifier is described as never empty after a
  parse. But `_parse` rejects only a missing `:` (`src/RNPermission.js:146-150`),
  so `:read` parses to the identifier `""` (`EmptyIdentifierParses`).
- **Validator and `**?`.** The validator's comment says a multistar must be
  followed by `:`, `/` or nothing (`src/validate.js:54`). Its regex
  `/\*\*[^:/?]/` (`:55`) also lets `?` follow, and an earlier `?` stays in
  the identifier because the split is at the last one. So the identifier
  `a/**?b` passes both multistar tests, yet its `**` compiles to a
  single-segment wildcard and the identifier does not accept itself
  (`QuestionAfterGlobstar`). `ValidMultistarsBounded` and
  `ValidatedIdentifierSelfMatch` therefore ask for an identifier without `?`.

## Model

| member | source | states |
|---|---|---|
| GlobToRegex.Compile | src/globToRegex.js:4-65 | The character loop emits exactly the pieces of `Tokenize`, at most one per pattern character. It advances the index in the inner star loop, and once more past a globstar's delimiter. It terminates. |
| GlobToRegex.TokensFrom | src/globToRegex.js:8-58 | The pieces of the pattern from index i, at most one per remaining character. `RunsFrom`, `StarFreeTokens` and `MidGlobstarTokens` state what they are. |
| GlobToRegex.Tokenize | src/globToRegex.js:4-62 | The pieces of the whole pattern. `Compile` is proved to emit exactly them, and `GlobstarIff` states which star runs become globstars. |
| GlobToRegex.GlobstarIff | src/globToRegex.js:36-49 | The compiled pattern contains a globstar iff some maximal star run has at least two stars and each neighbour is absent, `/` or `:`. It contains a wildcard iff some run does not qualify. |
| GlobToRegex.RunsFrom | src/globToRegex.js:8-58 | From any run boundary, a globstar (a wildcard) is emitted iff some later run qualifies (does not qualify). |
| GlobToRegex.StarFreeTokens | src/globToRegex.js:59-60 | A star-free stretch of the pattern compiles to one literal per character. |
| GlobToRegex.LitsMatch | src/globToRegex.js:64 | Literal pieces match exactly their own text at the front of the candidate; the remaining pieces must match the rest. |
| GlobToRegex.StarFreeExact | src/globToRegex.js:59-64 | The anchored matcher of a star-free pattern accepts exactly one candidate: the pattern itself. |
| GlobToRegex.SegmentsIff | src/globToRegex.js:51 | A run of whole segments, each delimiter-free and ended by a delimiter or the end, is exactly a text that is empty, ends in a delimiter, or reaches the end. |
| GlobToRegex.GlobSpanIsSegments | src/globToRegex.js:51 | The globstar takes exactly the candidate prefixes made of whole segments. |
| GlobToRegex.SelfMatch | src/globToRegex.js:46-56 | A pattern whose multi-star runs are all delimiter-bounded accepts itself. |
| GlobToRegex.NoSelfMatchUnbounded | src/globToRegex.js:53-56 | `a**b` compiles to a wildcard that cannot take `**`, so it does not accept itself. |
| GlobToRegex.TrailingGlobstar | src/globToRegex.js:50-52 | For a star-free `w`, `w` + delimiter + `**` accepts exactly the candidates that start with `w` and the delimiter. |
| GlobToRegex.TrailingStar | src/globToRegex.js:53-56 | For a star-free `w`, `w` + delimiter + `*` accepts exactly `w`, the delimiter and one segment. That segment has no delimiter, no line terminator and no `**`. |
| GlobToRegex.TrailingStarOneSegment | src/globToRegex.js:53-56 | Such a pattern refuses every candidate with a delimiter after the prefix. |
| GlobToRegex.GlobstarAcceptsAll | src/globToRegex.js:46-52 | A lone `**` accepts every candidate. |
| GlobToRegex.ArticleGlobstarRejects | src/globToRegex.js:26-28 | `article/**` refuses `article` and `articles`. |
| GlobToRegex.ArticleStarRejectsDeeper | src/globToRegex.js:53-56 | `article/*` refuses `article/*/comments`. |
| GlobToRegex.ArticleStarRejectsGlobstar | src/globToRegex.js:53-56 | `article/*` refuses `article/**`. |
| GlobToRegex.Matches | src/globToRegex.js:64 | The anchored test of the pieces against the whole candidate. `LitsMatch`, `GlobSpanIsSegments` and `SegmentsIff` state what each kind of piece takes. |
| GlobToRegex.MatchGlob | src/globToRegex.js:64 | `globToRegex(pattern).test(candidate)`. `StarFreeExact`, `TrailingGlobstar`, `TrailingStar` and `MidGlobstar` state what each common pattern shape accepts. |
| GlobToRegex.MidGlobstarTokens | src/globToRegex.js:46-52 | A globstar between two delimiters compiles to one globstar piece, which also consumes the delimiter after it. The star-free text on either side compiles to literals. |
| GlobToRegex.MidGlobstar | src/globToRegex.js:46-52 | For star-free `w` and `v`, `w` + delimiter + `**` + delimiter + `v` accepts exactly `w`, the first delimiter, a middle part and then `v`. The middle part must be empty or end in a delimiter. With `v` empty the middle part is free, so the closing delimiter is not required. |
| GlobToRegex.MidGlobstarEmpty | src/globToRegex.js:50-52 | `a/**/b` accepts `a/b`. |
| GlobToRegex.MidGlobstarSegments | src/globToRegex.js:50-52 | `a/**/b` accepts `a/x/y/b`. |
| GlobToRegex.MidGlobstarPartial | src/globToRegex.js:50-52 | `a/**/b` refuses `a/xb`. |
| JsString.LastIndexOf | src/RNPermission.js:147 | The result is -1 or an index of the character, and no later index holds it. |
| JsString.Split | src/RNPermission.js:178 | There is at least one piece, and no piece contains the separator. |
| JsString.JoinSplit | src/RNPermission.js:178 | Joining the pieces with the separator gives the string back. |
| JsString.SplitJoin | src/RNPermission.js:55 | Splitting the join of separator-free pieces gives the pieces back. |
| JsString.DecimalString | src/RNPermission.js:293 | A number prints as a non-empty string of decimal digits. |
| JsString.DecimalRoundTrip | src/RNPermission.js:293 | `parseInt` of the printed number is the number. |
| Configuration.OrAllUpper | src/RNPermission.js:119-121 | The OR fold is above every mask folded in. |
| Configuration.OrAllLeast | src/RNPermission.js:119-121 | Any mask above every folded mask is above the fold. |
| Configuration.BitOrAll | src/RNPermission.js:119-121 | A bit is set in the OR fold iff it is set in one of the folded masks. |
| Bits.BitOr | src/RNPermission.js:182 | A bit of the OR of `x` and `y` is a bit of `x` or a bit of `y`. |
| Bits.SubMaskBits | src/RNPermissions.js:46 | `x & ~y` is 0 iff every bit of `x` is a bit of `y`. |
| RNPermission.Flatten | src/RNPermission.js:221 | An element of the flattened list is a lone argument or an element of an array argument, and each of those is in it. |
| RNPermission.FlattenAppend | src/RNPermission.js:221 | Flattening distributes over concatenation of the arguments. |
| RNPermission.FlattenOne | src/RNPermission.js:221 | A lone argument flattens to itself, an array argument to its elements; with `FlattenAppend` this fixes the flattened list, order and repeats included. |
| RNPermission.OrNamesOk | src/RNPermission.js:178-183 | The name list resolves iff every name is configured with a non-zero value. |
| RNPermission.OrNamesValue | src/RNPermission.js:182 | A resolved name list gives the OR of the names' values. |
| RNPermission.OrNamesFirstUnknown | src/RNPermission.js:179-180 | A failure names the first unknown name; all the names before it are known. |
| RNPermission.OrNamesErrPrefix | src/RNPermission.js:178-181 | Once a name has thrown, the names after it do not change the outcome. |
| RNPermission.PrivilegesOf | src/RNPermission.js:165-185 | A numeric string resolves iff 1 <= n <= the largest value, to n; otherwise it fails with OutOfRange. Any other string is the name list. |
| RNPermission.ParsePrivileges | src/RNPermission.js:165-185 | The method computes `PrivilegesOf`. |
| RNPermission.OrNamesLoop | src/RNPermission.js:177-184 | The `forEach` that ORs into `bitmask` computes `OrNames`, stopping at the first unknown name. |
| RNPermission.Parse | src/RNPermission.js:136-155 | It fails with MissingDelimiter iff there is no `:`. Otherwise the identifier is the text before the last `:`, and the privileges are the text after it, resolved. |
| RNPermission.ParseFollowsPrivileges | src/RNPermission.js:146-155 | With a `:` present, parsing fails iff the text after the last `:` fails to resolve, and then with the same error. |
| RNPermission.EmptyIdentifierParses | src/RNPermission.js:146-150 | A string whose only `:` comes first parses to the empty identifier, with the privileges after the `:`. |
| RNPermission.ParseToString | src/RNPermission.js:292-294 | `toString` then parsing gives the same permission whenever 1 <= privileges <= the largest value. |
| RNPermission.ToStringAboveAll | src/RNPermission.js:292-294 | A mask above every configured value prints to a string that parses to OutOfRange. |
| RNPermission.ToString | src/RNPermission.js:292-294 | The identifier, `:` and the decimal mask. `ParseToString` and `ToStringAboveAll` state when parsing it gives the permission back. |
| RNPermission.NamesCanExceedEveryValue | src/RNPermission.js:170 | Names can build such a mask: `read,update` is 5 when the values are 1 and 4. |
| RNPermission.FirstFailure | src/RNPermission.js:221 | It returns the index of the first argument that does not convert; every argument before it converts. |
| RNPermission.Coerced | src/RNPermission.js:221 | When every argument converts, each converted value is at the same index. |
| RNPermission.CoerceAll | src/RNPermission.js:221 | It succeeds iff every argument converts, with the values in order. Otherwise it returns the error of the first argument that does not convert. |
| RNPermission.CoerceAllAppend | src/RNPermission.js:221 | Converting two lists together gives the two conversions concatenated. |
| RNPermission.Coerce | src/RNPermission.js:13-32 | `new RNPermission(a)` as a value: a string is parsed against the registry, a permission is copied, anything else throws. `Permission.New` is proved to compute it. |
| RNPermission.MatchPrivileges | src/RNPermission.js:193-196 | The test `q <= h && (h & q) != 0`. `SubMaskMatches`, `MatchPrivilegesNotSubMask` and `LowOnesMatch` relate it to the sub-mask order. |
| RNPermission.SubMaskMatches | src/RNPermission.js:193-196 | A non-empty sub-mask of the held mask passes `matchPrivileges`. |
| RNPermission.MatchPrivilegesNotSubMask | src/RNPermission.js:193-196 | The converse fails: held 5 passes a test for 3, although 3 is not a sub-mask of 5. |
| RNPermission.LowOnesMatch | src/RNPermission.js:193-196 | Against an all-ones mask such as 63, the test is exactly "non-zero sub-mask". |
| RNPermission.EveryTokenMeaning | src/RNPermission.js:84-89 | A string query is true iff every comma token resolves and passes. It throws iff the first token that does not pass fails to resolve (every token before it passes), and the error is that token's. |
| RNPermission.EveryTokenRaises | src/RNPermission.js:84-89 | The `every` over comma tokens throws exactly when the first token that does not pass fails to resolve in `_parsePrivileges`. |
| RNPermission.HasPrivilegeMeaning | src/RNPermission.js:71-93 | `hasPrivilege(q)` is true iff `q` holds. A number must pass the test, every token of a string must pass, and every element of an array must hold. Any other value never holds. |
| RNPermission.EveryQueryMeaning | src/RNPermission.js:72-74 | An array query from index i is true iff every element from i holds. |
| RNPermission.EveryQueryRaises | src/RNPermission.js:72-74 | An array query from index i throws iff some element from i throws and every element before it (from i) holds. |
| RNPermission.HasPrivilegeRaises | src/RNPermission.js:71-93 | `hasPrivilege(q)` throws iff `q` raises: any value that is not an array, string or number; a string whose first token that does not pass fails to resolve; an array whose first element that does not hold throws. A number never throws. |
| RNPermission.HasPrivilege | src/RNPermission.js:71-93 | `hasPrivilege(q)` with `every` stopping at the first failure. `HasPrivilegeMeaning` ties its true answer to `Holds`, and `HasPrivilegeRaises` ties its exceptions to `Raises`; otherwise it answers false. |
| RNPermission.Holds | src/RNPermission.js:71-93 | When a query holds, stated without the order of evaluation. `HasPrivilegeMeaning` states that `hasPrivilege` is true exactly then. |
| RNPermission.GrantNameHeld | src/RNPermission.js:108 | A delegation-capable name never throws; it tests its own value with `matchPrivileges`. |
| RNPermission.GrantNamesFromMeaning | src/RNPermission.js:105-113 | A name is listed iff it is in the given delegation names and its value passes. No name is listed twice. |
| RNPermission.GrantNamesMeaning | src/RNPermission.js:105-113 | `grantPrivileges()` lists exactly the delegation-capable names whose values pass, each once. |
| RNPermission.GrantNamesFromWithin | src/RNPermission.js:107-110 | Every listed name is one of the names looked at. |
| RNPermission.GrantNamesFromOrder | src/RNPermission.js:107-110 | Any two listed names appear in the same order among the names looked at. |
| RNPermission.GrantNamesOrder | src/RNPermission.js:105-113 | `grantPrivileges()` lists its names in the order of the registry's `grantPrivileges` keys. |
| RNPermission.GrantNames | src/RNPermission.js:105-113 | `grantPrivileges()`. `GrantNamesMeaning` states which names it lists and `GrantNamesOrder` their order. |
| RNPermission.GrantsAllowed | src/RNPermission.js:118-122 | The OR of the grant masks of the listed names. `GrantsAllowedBounds` states it is their least upper bound. |
| RNPermission.GrantsAllowedBounds | src/RNPermission.js:118-122 | `grantsAllowed()` is the least mask above the grant mask of every held delegation name. |
| RNPermission.GrantsAllowedNone | src/RNPermission.js:118-122 | It is 0 when no delegation name is held. |
| RNPermission.MatchIdentifier | src/RNPermission.js:203-211 | For an object, the result is whether the glob accepts its identifier. A string must parse, and then the result is whether the glob accepts the text before its last `:`. Any other value throws. |
| RNPermission.Allows | src/RNPermission.js:220-223 | It throws iff some flattened argument does not convert. It is true iff every argument converts and is covered: the glob accepts its identifier and its mask passes `matchPrivileges`. |
| RNPermission.AllowsSplit | src/RNPermission.js:220-223 | Passing the arguments in two calls gives the same verdict as passing them in one. |
| RNPermission.AllowsSelf | src/RNPermission.js:220-223 | A permission with a non-zero mask and delimiter-bounded multi-star runs allows itself. |
| RNPermission.RefusalEffective | src/RNPermission.js:251-264 | The grant test refuses iff `toGrant > allowed`. The grantee test refuses iff the grantee mask is non-zero and above `allowed`. Neither is a sub-mask test, except against all-ones masks. |
| RNPermission.NameValue | src/RNPermission.js:262 | A name counts 0 iff it is empty, unconfigured, or configured as 0. |
| RNPermission.GranteeNamesMeaning | src/RNPermission.js:257-261 | A name is collected iff some grantee whose glob accepts the grantor's identifier holds it as a delegation name. |
| RNPermission.GranteeMaskBounds | src/RNPermission.js:257-263 | The grantee mask is the least mask above the value of every collected name. |
| RNPermission.MayGrantMeaning | src/RNPermission.js:228-270 | `mayGrant` is true iff all of these hold: the candidate converts; `grantsAllowed()` is non-zero; the glob accepts the candidate's identifier; its mask is <= `grantsAllowed()`; and, when there are grantees, they convert and their mask is 0 or <= `grantsAllowed()`. It throws iff a conversion it reaches fails. |
| RNPermission.MayGrant | src/RNPermission.js:228-234 | `mayGrant` on one permission. `MayGrantMeaning` states when it is true. |
| RNPermission.ListOfNames | src/RNPermission.js:54-55 | An array of names sets the same mask as the comma list of those names. |
| RNPermission.Permission.FromValue | src/RNPermission.js:22-28 | The copy holds exactly the given identifier, privileges and registry. |
| RNPermission.Permission.New | src/RNPermission.js:13-32 | It gives a new object holding the converted value when the argument converts; otherwise it returns the conversion's error. |
| RNPermission.Permission.Clone | src/RNPermission.js:275-277 | It returns a new object holding the same value. |
| RNPermission.Permission.SetIdentifier | src/RNPermission.js:37-47 | A string replaces the identifier and nothing else. Any other value throws and leaves the object unchanged. |
| RNPermission.Permission.SetPrivileges | src/RNPermission.js:52-66 | The resolved mask replaces the privileges and nothing else. An array is joined and parsed, a string is parsed, and a number is stored as given. A failure leaves the object unchanged. |
| RNPermission.Permission.GrantPrivileges | src/RNPermission.js:105-113 | The loop that pushes each held delegation name returns `GrantNames`. |
| RNPermission.CloneThenChange | src/RNPermission.js:275-277 | A clone keeps its value when the original's identifier and privileges are set afterwards. |
| RNPermissions.NewAll | src/RNPermissions.js:36 | `map(e => new RNPermission(e))` gives new, distinct objects holding the converted values, in order. Otherwise it returns the first conversion error. |
| RNPermissions.CoverBounds | src/RNPermissions.js:42-50 | The cover is the least mask above the privileges of every held permission whose glob accepts the identifier. |
| RNPermissions.CoverPrefix | src/RNPermissions.js:42-50 | The cover of the first i held permissions is inside the whole cover. |
| RNPermissions.CoverSnoc | src/RNPermissions.js:44-46 | One more held permission ORs its contribution into the cover. |
| RNPermissions.Cover | src/RNPermissions.js:42-50 | The OR of the privileges of the held permissions whose glob accepts the identifier. `CoverBounds` and `CoverBit` state what it holds. |
| RNPermissions.CoverBit | src/RNPermissions.js:42-50 | A bit is in the cover iff some held permission whose glob accepts the identifier has that bit. |
| RNPermissions.Remaining | src/RNPermissions.js:46 | The requested bits the cover does not supply. `RemainingNone` states when none is left. |
| RNPermissions.RemainingNone | src/RNPermissions.js:42-50 | No requested bit is left iff each bit of the request is a bit of some held permission whose glob accepts the request's identifier. |
| RNPermissions.ClearedEarly | src/RNPermissions.js:43 | Stopping the loop once nothing is left does not change the outcome. |
| RNPermissions.SetAllows | src/RNPermissions.js:34-52 | `allows` on the held values. `SetAllowsThrows` and `SetAllowsMeaning` state when it throws and when it is true. |
| RNPermissions.SetAllowsThrows | src/RNPermissions.js:36 | `allows` throws iff some flattened argument does not convert. |
| RNPermissions.SetAllowsMeaning | src/RNPermissions.js:34-52 | `allows` is true iff every argument converts and, for each converted request, every bit it asks for is a bit of some held permission whose glob accepts its identifier. Bits may come from different held permissions. |
| RNPermissions.ClearCovered | src/RNPermissions.js:42-50 | The `while` loop keeps `remaining == requested & ~cover(held[..i])` and stops early at 0. Afterwards the copy holds exactly its uncovered bits, with identifier and registry unchanged. It reports whether no requested bit is left uncovered. |
| RNPermissions.ClearAll | src/RNPermissions.js:41-51 | The `every` over the request copies is true iff no request has a bit left, and it stops at the first request with bits left (every request before it is clear). Each copy up to and including that one holds its uncovered bits; the later copies are untouched. |
| RNPermissions.ClearAt | src/RNPermissions.js:43-50 | One round of the `every`: the current copy ends with its uncovered bits, the round goes on iff that request is clear, and every other copy keeps its value. |
| RNPermissions.AllowsCombines | src/RNPermissions.js:34-52 | Held masks 1 and 4 together cover 5, which neither covers alone. |
| RNPermissions.SetVersusSingle | src/RNPermissions.js:41-51 | For one held permission, full coverage of a non-zero request implies the single permission's `allows` test. A matching sub-mask gives both. The single test alone accepts 3 against 5, where the set leaves a bit. |
| RNPermissions.SomeMeaning | src/RNPermissions.js:76 | `some` is true iff some answer is true and every answer before it is false. |
| RNPermissions.SetMayGrantMeaning | src/RNPermissions.js:74-77 | The set's `mayGrant` is true iff some single held permission's `mayGrant` is true and those before it are false. Rights are not combined, and an empty set grants nothing. |
| RNPermissions.MayGrantCoerced | src/RNPermissions.js:75-76 | Asking with the converted candidate gives the same answer as asking with the candidate. |
| RNPermissions.SetMayGrant | src/RNPermissions.js:74-77 | `mayGrant` on the held values. `SetMayGrantMeaning` states when it is true. |
| RNPermissions.PermissionSet.Create | src/RNPermissions.js:11-13 | Construction succeeds iff every flattened argument converts, holding new objects with the converted values in order. Otherwise it returns the first error. |
| RNPermissions.PermissionSet.SetPermissions | src/RNPermissions.js:18-24 | With arguments, the list is replaced by new objects for them, in order, or nothing changes when one throws. With none, nothing changes. |
| RNPermissions.PermissionSet.Allows | src/RNPermissions.js:34-52 | The result is `SetAllows` of the values held at the call. The method modifies no object that existed before it. |
| Validate.AllTokensValidMeaning | src/validate.js:23-31 | The early-exit loop accepts iff every token passes. |
| Validate.ValidatePrivilegesMeaning | src/validate.js:17-32 | `validatePrivileges` accepts iff every comma token is a configured name, or a number that is at least the smallest value and below twice the largest. |
| Validate.Validate | src/validate.js:37-63 | True only for a string whose last `?` is at a positive index. |
| Validate.ValidatedIdentifier | src/validate.js:43-52 | A validated string has a non-empty identifier before its last `?`, and the identifier contains an identifier character. |
| Validate.ValidateSplit | src/validate.js:43-62 | For `id?rest` with no `?` in `rest`, the validator is true iff all of these hold: `id` is non-empty and has an identifier character; no `**` in `id` is followed by a character other than `:`, `/` or `?`; no `**` is preceded by a character other than `:` or `/`; and `rest` validates. |
| Validate.RejectsUnboundedMultistar | src/validate.js:55-56 | `**` followed by a character other than `:`, `/` or `?`, or preceded by one other than `:` or `/`, is refused whatever the privileges. |
| Validate.ValidMultistarsBounded | src/validate.js:55-56 | An identifier without `?` that passes both multistar tests has all its multi-star runs bounded, as the glob compiler needs. |
| Validate.ValidatedIdentifierSelfMatch | src/validate.js:49-56 | The glob of a validated identifier without `?` accepts that identifier. |
| Validate.QuestionAfterGlobstar | src/validate.js:54-56 | `a/**?b?rest` validates iff `rest` does, yet the glob `a/**?b` does not accept itself: the first multistar test lets `?` follow `**`, against its comment. |
| Validate.QuestionGlobstarNoSelfMatch | src/globToRegex.js:46-56 | `a/**?b` compiles to a single-segment wildcard between `a/` and `?b`, which refuses `**`, so it does not accept itself. |
| Validate.ValidNamesParse | src/validate.js:27-29 | With no zero values and no numeric tokens, a privilege text the validator accepts resolves in the parser, to the OR of the names' values. |
| Validate.NumberAboveMaximum | src/validate.js:24-26 | With values 1 and 2, `3` validates, yet the parser refuses it as out of range. |
| Validate.MixedTokensRefused | src/validate.js:23-30 | A non-numeric privilege text with a numeric token fails in the parser when no configured name is numeric, even where the validator accepts it. |

## Left out

- The configuration singleton `config()` and its reset (`src/config.js`) are not part of this model.
  - The registry is the parameter `Config`.
  - A permission keeps the snapshot it was created with, as `_.cloneDeep(config())` does.
  - Every registry is assumed `Valid()`:
    - at least one privilege;
    - values below 2^31;
    - delegation names listed once, each a configured, non-zero, comma-free, non-numeric privilege.
  - With an empty registry or a numeric or unconfigured delegation name, the source's `_.max` and `grantPrivileges` behave in ways not modelled.
- `isNumeric` (`src/util.js`) is not part of this model. It is taken to mean a non-empty string of decimal digits.
- Numbers are non-negative integers.
  - The 32-bit signed coercion of `|`, `&` and `~` on values of 2^31 or more is not modelled.
  - Fractions, negative numbers and `NaN` passed to `privileges()` or `hasPrivilege()` are not modelled.
  - Nor is the precision loss of `parseInt` on very long digit strings.
- Dynamic type tests (`_.isString`, `_.isArray`, `_.isNumber`, `instanceof`) become tagged unions (`Arg`, `Query`, `IdArg`, `PrivArg`, `Input`).
  - Each keeps an "other value" case wherever the source throws or returns false for one.
  - The grantee argument of `mayGrant` is taken to be an array.
- The JavaScript `RegExp` engine is replaced by the piece sequence and `Matches`.
  - Escaping is not modelled character by character: an escaped reserved character and a copied one both match exactly themselves.
  - The validator's own regular expressions are written out as the predicates they test.
- lodash `cloneDeep` is a value copy, and `flatten` is a one-level spread (`Spread`, `Flatten`).
- `RNPermission.ToObject`: it returns the identifier and privileges pair and has no contract, as there is nothing to prove about it.
- `hasPrivileges` (`src/RNPermission.js:98-100`) is the same call as `hasPrivilege`, so `HasPrivilege` serves for both.
- `mayRevoke` is modelled as `MayRevoke`, `SetMayRevoke` and `PermissionSet.MayRevoke`. These are defined as the corresponding `mayGrant`, as the source does.
- `PermissionSet.MayGrant` and `PermissionSet.MayRevoke` are read-only functions of the held values. Their meaning is stated by `SetMayGrantMeaning`.
- `RNPermissions.PermissionSet.Allows`: the result is stated against the values held when the call starts.
- The getter form of `permissions()` returns the live list. Its aliasing, where callers mutate held objects through it, is not modelled.
- `src/index.js` holds only factory wrappers and is not part of this model.
- RNPermission.OrNames: a name is looked up in the registry as a map, so only configured names resolve.
  - The source indexes a plain object, where inherited keys such as `constructor`, `toString` or `__proto__` give a truthy non-number.
  - For those the source does not throw but ORs in 0, so `a:constructor` parses to privileges 0; the model returns UnknownPrivilege.
  - The same holds for such a token in a `hasPrivilege` string, which the source answers false and the model answers with an exception.
