/** The eligibility question (internal/promotion/service.go, validator.go):
    is a valid code present in both the campaign and the membership source? */
module Promotion {
  import opened Wrappers
  import opened Codes
  import opened Validation
  import opened Errors
  import opened Repository

  /** The service holds the two sources it consults. */
  datatype PromotionService = PromotionService(campaignRepo: CodeRepository, membershipRepo: CodeRepository)

  /** Which source a call consulted. */
  datatype Role = Campaign | Membership

  /** The service's `(bool, error)` answer together with the sources it asked,
      in the order it asked them. */
  datatype Eligibility = Eligibility(answer: Answer, asked: seq<Role>)

  /** Validate, then ask the campaign source, then, only when the campaign
      source has the code, ask the membership source. */
  function IsEligible(s: PromotionService, fs: FileSystem, code: Code): (r: Eligibility)
    ensures Settled(r.answer)
    ensures r.answer.value <==>
              IsValidCode(code) && r.answer.err.None?
              && Contains(s.campaignRepo, fs, code) && Contains(s.membershipRepo, fs, code)
    ensures !IsValidCode(code) ==> r.asked == [] && r.answer.err.Some? && r.answer.err.value.Invalid?
    ensures r.asked == [] || r.asked == [Campaign] || r.asked == [Campaign, Membership]
    ensures Membership in r.asked ==> IsValidCode(code) && Contains(s.campaignRepo, fs, code)
  {
    match ValidateCode(code)
    case Some(v) => Eligibility(Answer(false, Some(Invalid(v))), [])
    case None =>
      var inCampaign := Exists(s.campaignRepo, fs, code);
      if inCampaign.err.Some? || !inCampaign.value then
        Eligibility(Answer(false, inCampaign.err), [Campaign])
      else
        var inMembership := Exists(s.membershipRepo, fs, code);
        if inMembership.err.Some? then
          Eligibility(Answer(false, inMembership.err), [Campaign, Membership])
        else
          Eligibility(Answer(inMembership.value, None), [Campaign, Membership])
  }

  /** An invalid code is answered with its validation error and no source is
      consulted. */
  lemma InvalidCodeAsksNoSource(s: PromotionService, fs: FileSystem, code: Code)
    requires ValidateCode(code).Some?
    ensures IsEligible(s, fs, code) == Eligibility(Answer(false, Some(Invalid(ValidateCode(code).value))), [])
  {
  }

  /** A campaign-source error is returned as is and the membership source is
      not consulted. */
  lemma CampaignErrorStops(s: PromotionService, fs: FileSystem, code: Code)
    requires IsValidCode(code)
    requires Exists(s.campaignRepo, fs, code).err.Some?
    ensures IsEligible(s, fs, code) == Eligibility(Exists(s.campaignRepo, fs, code), [Campaign])
    ensures !IsEligible(s, fs, code).answer.value
  {
  }

  /** A code the campaign source lacks is a plain "no" and the membership
      source is not consulted. */
  lemma CampaignMissStops(s: PromotionService, fs: FileSystem, code: Code)
    requires IsValidCode(code)
    requires Exists(s.campaignRepo, fs, code) == Answer(false, None)
    ensures IsEligible(s, fs, code) == Eligibility(Answer(false, None), [Campaign])
  {
  }

  /** Once the campaign source has the code, the membership source's answer
      is the service's answer. */
  lemma MembershipDecides(s: PromotionService, fs: FileSystem, code: Code)
    requires IsValidCode(code)
    requires Exists(s.campaignRepo, fs, code) == Answer(true, None)
    ensures IsEligible(s, fs, code).asked == [Campaign, Membership]
    ensures IsEligible(s, fs, code).answer == Exists(s.membershipRepo, fs, code)
  {
  }

  /** With both sources readable, the answer carries no error exactly when the
      code is valid, and is true exactly when the code is valid and in both. */
  lemma EligibleIffInBoth(s: PromotionService, fs: FileSystem, code: Code)
    requires Readable(s.campaignRepo, fs) && Readable(s.membershipRepo, fs)
    ensures IsEligible(s, fs, code).answer.err.None? <==> IsValidCode(code)
    ensures IsEligible(s, fs, code).answer.value <==>
              IsValidCode(code) && Contains(s.campaignRepo, fs, code) && Contains(s.membershipRepo, fs, code)
  {
  }

  /** The codes the service's table tests query are all valid. */
  lemma TestCodesAreValid()
    ensures IsValidCode("promo") && IsValidCode("sale") && IsValidCode("gold") && IsValidCode("notfd")
  {
    ValidationExamples();
    var sale: Code := "sale";
    var gold: Code := "gold";
    var notfd: Code := "notfd";
    assert ValidateCode(sale) == None by { assert FirstNonLowercase(sale, 0) == None; }
    assert ValidateCode(gold) == None by { assert FirstNonLowercase(gold, 0) == None; }
    assert ValidateCode(notfd) == None by { assert FirstNonLowercase(notfd, 0) == None; }
  }

  /** A code is not in a list whose entries all start with a different byte. */
  lemma NotListedByFirstByte(code: Code, codes: seq<Code>)
    requires |code| > 0
    requires forall i :: 0 <= i < |codes| ==> |codes[i]| > 0 && codes[i][0] != code[0]
    ensures code !in codes
  {
  }

  /** The sources of the service's first two table tests. */
  function TestService(): PromotionService {
    var campaign: seq<Code> := ["promo", "sale", "xyz"];
    var membership: seq<Code> := ["promo", "gold"];
    PromotionService(MockRepo(NewMockCodeRepository(campaign, None)),
                     MockRepo(NewMockCodeRepository(membership, None)))
  }

  /** A code in both sources is eligible. */
  lemma ScenarioInBoth(fs: FileSystem)
    ensures IsEligible(TestService(), fs, "promo").answer == Answer(true, None)
  {
    var s := TestService();
    var code: Code := "promo";
    TestCodesAreValid();
    var campaign: seq<Code> := ["promo", "sale", "xyz"];
    var membership: seq<Code> := ["promo", "gold"];
    assert campaign[0] == code && membership[0] == code;
    assert Contains(s.campaignRepo, fs, code) && Contains(s.membershipRepo, fs, code);
    EligibleIffInBoth(s, fs, code);
  }

  /** A code in only the campaign source is not eligible. */
  lemma ScenarioOnlyCampaign(fs: FileSystem)
    ensures IsEligible(TestService(), fs, "sale").answer == Answer(false, None)
  {
    var s := TestService();
    var code: Code := "sale";
    TestCodesAreValid();
    var membership: seq<Code> := ["promo", "gold"];
    NotListedByFirstByte(code, membership);
    assert !Contains(s.membershipRepo, fs, code);
    EligibleIffInBoth(s, fs, code);
  }

  /** A code in only the membership source is not eligible. */
  lemma ScenarioOnlyMembership(fs: FileSystem)
    ensures IsEligible(TestService(), fs, "gold").answer == Answer(false, None)
  {
    var s := TestService();
    var code: Code := "gold";
    TestCodesAreValid();
    var campaign: seq<Code> := ["promo", "sale", "xyz"];
    NotListedByFirstByte(code, campaign);
    assert !Contains(s.campaignRepo, fs, code);
    EligibleIffInBoth(s, fs, code);
  }

  /** The sources of the service's last table test. */
  function SparseService(): PromotionService {
    var campaign: seq<Code> := ["promo", "sale"];
    var membership: seq<Code> := ["gold"];
    PromotionService(MockRepo(NewMockCodeRepository(campaign, None)),
                     MockRepo(NewMockCodeRepository(membership, None)))
  }

  /** A code in neither source is not eligible. */
  lemma ScenarioInNeither(fs: FileSystem)
    ensures IsEligible(SparseService(), fs, "notfd").answer == Answer(false, None)
  {
    var s := SparseService();
    var code: Code := "notfd";
    TestCodesAreValid();
    var campaign: seq<Code> := ["promo", "sale"];
    NotListedByFirstByte(code, campaign);
    assert !Contains(s.campaignRepo, fs, code);
    EligibleIffInBoth(s, fs, code);
  }
}
