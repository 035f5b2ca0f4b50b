# Promotion eligibility check — Dafny model

This project models the core of a small Go service that answers one question:
is a promotion code valid, and present both in a *campaign* code source and in
a *membership* code source? The model covers

- the code validator (`ValidateCode` and the `ValidationError` it returns),
- the service's `IsEligible`, which validates, asks the campaign source, and
  asks the membership source only when the campaign source has the code,
- the in-memory `MockCodeRepository` (constructor, `Exists`, `LoadAll`),
- the file-backed `FileCodeRepository.Exists`, an early-exit scan over lines.

Layout, one module per file:

| file | module | contents |
|---|---|---|
| wrappers.dfy | `Wrappers` | `Option` (Go's nil-or-value) and `Result` |
| codes.dfy | `Codes` | a code as a byte sequence; the `a`–`z` test |
| validation.dfy | `Validation` | `ValidationError`, its printed form, `ValidateCode` |
| errors.dfy | `Errors` | the error values that flow through the service; the `(bool, error)` pair `Answer` |
| repository.dfy | `Repository` | mock and file repositories, and the `CodeRepository` interface as a datatype over both |
| promotion.dfy | `Promotion` | `PromotionService`, `IsEligible`, and its short-circuit and scenario lemmas |

Modelling choices:

- A code is a Go string, so it is a byte sequence. A byte is written as the
  character with the same number (at most `'ÿ'`). Length is the byte count,
  as Go's `len` is. Go's validation loop walks runes, not bytes. Every byte of
  a multi-byte rune is at least 0x80, and so is the replacement rune produced
  for malformed input. So "some rune is outside `a`–`z`" holds exactly when
  "some byte is outside `a`–`z`", and the model checks bytes.
- Go's `error` interface is open; the model uses a closed datatype with two
  kinds: a `ValidationError`, and a source failure (`Source`). A source failure
  covers an open error, a scanner error and an error injected into the mock.
- The `CodeRepository` interface becomes a datatype with one variant per
  implementation. Only `Exists` is part of it, because `IsEligible` calls
  nothing else.
- The file system is an input. `FileSystem` maps a path to what opening and
  scanning it yields. That is either the open error, or the lines the scanner
  delivers plus the error (if any) that stopped it.
- `IsEligible` returns the Go `(bool, error)` pair together with the list of
  sources it consulted. "No source is asked" and "the membership source is
  not asked" are then statements about that list.
- `PromotionService` is the two-field record of `service.go`. Its constructor
  `NewPromotionService` is the datatype constructor.

`IsEligible` keeps no index of either source and never calls `LoadAll`: it
calls the campaign source's `Exists` on every query
(internal/promotion/validator.go:10). For an invalid code the answer carries
the validation error even when both sources are readable, so
`EligibleIffInBoth` states that the error is nil exactly when the code is
valid, and that the value is true exactly when the code is valid and in both
sources.

## Model

| member | source | states |
|---|---|---|
| Validation.Render | internal/promotion/validation.go:11-13 | the printed error is `validation error: `, then the field, then ` - `, then the message, and nothing else |
| Validation.RenderDeterminesMessage | internal/promotion/validation.go:11-13 | two errors about the same field that print the same text are the same error |
| Validation.RenderedRulesDiffer | internal/promotion/validation.go:17-38 | the three rules' errors print differently, so the printed text tells which rule failed |
| Validation.FirstNonLowercase | internal/promotion/validation.go:31-38 | the character loop stops at the first byte outside `a`–`z`; it finds none exactly when every remaining byte is a lowercase letter |
| Validation.ValidateCode | internal/promotion/validation.go:16-41 | success exactly when the code has 1 to 5 bytes, all in `a`–`z`; empty gives the "cannot be empty" error; over 5 bytes gives "at most 5 characters" whatever the bytes are; otherwise a bad byte gives "only lowercase letters"; the field is always `code` |
| Validation.ValidationExamples | internal/promotion/validation_test.go:7-86 | "promo" passes; "" is empty; "abcdef" is too long; "Promo", "abc12", "ab_cd" and "ab cd" have a bad character |
| Repository.CodeSet | internal/repository/mock_repository.go:11-14 | the set built from a list holds exactly the listed codes and is no larger than the list |
| Repository.NewMockCodeRepository | internal/repository/mock_repository.go:10-19 | the repository holds exactly the listed codes and the given error |
| Repository.MockIgnoresOrderAndDuplicates | internal/repository/mock_repository.go:10-14 | two lists with the same members give the same repository, whatever their order and repetitions |
| Repository.MockExists | internal/repository/mock_repository.go:22-27 | a lookup that returns an error returns false with it |
| Repository.MockExistsFromList | internal/repository/mock_repository.go:22-27 | with an injected error every code gets `(false, err)`; without one a code gets `(listed, nil)` |
| Repository.MockLoadAll | internal/repository/mock_repository.go:31-43 | with an injected error the result is that error; otherwise a set equal to the stored codes, of the same size, holding a code exactly when `Exists` says true for it |
| Repository.FileExists | internal/repository/file_repository.go:17-36 | an open failure gives `(false, openErr)`; for an opened file the value is true exactly when some line equals the code; a miss carries the scanner's error or nil |
| Repository.FileExistsByScan | internal/repository/file_repository.go:17-36 | the line-by-line loop gives the same answer as `FileExists`; on a match exactly the lines up to the first matching one are read; on a miss every line is read; an open failure reads nothing |
| Repository.FileMatchingExamples | internal/repository/file_repository_test.go:46-81 | matching is on whole lines and case-sensitive: "abc" and "promo" are found, while "invalid", "", "ab" and "ABC" are not |
| Repository.Exists | internal/repository/repository.go:4-7 | a readable source answers `(contains, nil)`; true implies no error and presence; a nil-error false implies absence; an unreadable source reports an error for a code it does not hold |
| Promotion.IsEligible | internal/promotion/validator.go:4-21 | true exactly when the code is valid, no error is returned and both sources contain it; an error always comes with false; an invalid code consults no source and returns a validation error; the sources asked are none, campaign, or campaign then membership; membership is asked only for a valid code the campaign source contains |
| Promotion.InvalidCodeAsksNoSource | internal/promotion/validator.go:6-8 | an invalid code returns `(false, thatValidationError)` and consults no source |
| Promotion.CampaignErrorStops | internal/promotion/validator.go:10-13 | a campaign-source error is returned as is, with false, and only the campaign source is consulted |
| Promotion.CampaignMissStops | internal/promotion/validator.go:10-13 | a campaign-source `(false, nil)` gives `(false, nil)` and the membership source is not consulted |
| Promotion.MembershipDecides | internal/promotion/validator.go:15-20 | once the campaign source has the code, the membership source's `(bool, error)` is the answer, after asking campaign then membership |
| Promotion.EligibleIffInBoth | internal/promotion/validator.go:4-21 | with both sources readable, the error is nil exactly when the code is valid, and the value is true exactly when the code is valid and in both sources |
| Promotion.ScenarioInBoth | internal/promotion/validator_test.go:9-26 | campaign {promo, sale, xyz}, membership {promo, gold}: "promo" gives `(true, nil)` |
| Promotion.ScenarioOnlyCampaign | internal/promotion/validator_test.go:28-46 | the same sources: "sale" gives `(false, nil)` |
| Promotion.ScenarioOnlyMembership | internal/promotion/validator_test.go:47-56 | the same sources: "gold" gives `(false, nil)` |
| Promotion.ScenarioInNeither | internal/promotion/validator_test.go:59-76 | campaign {promo, sale}, membership {gold}: "notfd" gives `(false, nil)` |

## Left out

- Program entry point (cmd/app/main.go): argument counting, printing and exit codes are process plumbing.
- Test-data generator (scripts/generate_data.go): random codes, a float overlap ratio and file creation; it makes no promise to model.
- Line splitting by the Go scanner (newline and `\r\n` handling, the token-size limit): the library is not part of this model, so the scanner's output is an input, a list of lines plus an optional trailing error.
- `FileCodeRepository.LoadAll`: the interface requires it and a test calls it, but file_repository.go does not define it, so there is nothing to model.
- `LoadAll` in the `CodeRepository` datatype: `IsEligible` never calls it, so the interface datatype carries only `Exists`; the mock's `LoadAll` is modelled on its own.
- The copy that `LoadAll` returns: Dafny sets are values, so changing the returned set cannot affect the repository, and no lemma is needed.
- Concurrent callers: the service holds no mutable state of its own, and the model treats each query on its own.
- The benchmark (internal/promotion/validator_bench_test.go): it measures time and asserts nothing.
- Identity of Go error values: errors are compared as values, which is what "the same error is returned" means here.
