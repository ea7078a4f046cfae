/** The question catalog and `get_flattened_questions`: the programs of
    the student's tier, in the (already shuffled) program order, each
    followed by its statements in catalog order. */
module Catalog {
  import opened Tiers

  /** The two name prefixes the catalog uses. */
  const BachelorOfScience: string := "Bachelor of Science, "
  const MasterOfScience: string := "Master of Science, "

  /** The ten program names. */
  const BSComputerScience: string := BachelorOfScience + "Computer Science"
  const BSCybersecurity: string := BachelorOfScience + "Cybersecurity and Information Assurance"
  const BSDataAnalytics: string := BachelorOfScience + "Data Analytics"
  const BSNetworkEngineering: string := BachelorOfScience + "Network Engineering and Security"
  const BSSoftwareEngineering: string := BachelorOfScience + "Software Engineering"
  const BSCloudComputing: string := BachelorOfScience + "Cloud Computing"
  const BSInformationTechnology: string := BachelorOfScience + "Information Technology"
  const MSCybersecurity: string := MasterOfScience + "Cybersecurity and Information Assurance"
  const MSDataAnalytics: string := MasterOfScience + "Data Analytics"
  const MSITManagement: string := MasterOfScience + "Information Technology Management"

  /** Each program's five statements, in catalog order. */
  const BSComputerScienceStatements: seq<string> := [
    "I am intrigued by the inner workings of computers and algorithms.",
    "I am enthusiastic about solving complex problems using programming.",
    "I am drawn to the idea of designing efficient computational systems.",
    "I am inquisitive and methodical, driven by the desire to uncover the mechanics behind digital systems.",
    "I am tenacious and analytical, finding joy in solving complex puzzles and logical challenges."
  ]

  const BSCybersecurityStatements: seq<string> := [
    "I am interested in protecting digital information from unauthorized access.",
    "I am passionate about understanding and thwarting cyber threats.",
    "I am committed to maintaining the integrity and confidentiality of digital data.",
    "I am vigilant and detail-oriented, committed to maintaining the integrity of confidential systems.",
    "I value trust and discretion, ensuring safety in every online interaction."
  ]

  const BSDataAnalyticsStatements: seq<string> := [
    "I am fascinated by the power of data to reveal insights and drive decisions.",
    "I am eager to apply statistical techniques to interpret large data sets.",
    "I am inclined towards transforming raw data into meaningful information.",
    "I am curious and precise, with a knack for finding meaning in abstract information.",
    "I prioritize clarity and insight, striving to turn raw numbers into actionable knowledge."
  ]

  const BSNetworkEngineeringStatements: seq<string> := [
    "I am keen on designing and managing secure computer networks.",
    "I am attracted to the complexity of ensuring seamless communication between devices.",
    "I am determined to build resilient network infrastructures.",
    "I am resourceful and adaptive, thriving on the ever-changing landscape of interconnected systems.",
    "I am systematic and vigilant, specifically ensuring the reliability and integrity of connections across various platforms."
  ]

  const BSSoftwareEngineeringStatements: seq<string> := [
    "I am excited about creating high-quality software that meets user needs.",
    "I am motivated by the challenge of developing and maintaining robust software systems.",
    "I am devoted to applying engineering principles to software development.",
    "I am creative and resilient, driven to find unique solutions to intricate challenges.",
    "I am methodical and attentive, dedicated to building flawless digital tools."
  ]

  const BSCloudComputingStatements: seq<string> := [
    "I am drawn to the potential of cloud platforms in hosting and managing services.",
    "I am curious about optimizing resource usage in distributed environments.",
    "I am interested in exploring the scalability and flexibility of cloud solutions.",
    "I am proactive and visionary, eager to explore the horizons of scalable online solutions.",
    "I am adaptable and forward-thinking, staying ahead of shifts in virtual infrastructure."
  ]

  const BSInformationTechnologyStatements: seq<string> := [
    "I am enthusiastic about integrating technology to support organizational goals.",
    "I am inclined to understand how technology interfaces with business processes.",
    "I am focused on leveraging technology to solve real-world challenges.",
    "I am pragmatic and solution-oriented, making technology serve people's unique needs.",
    "I am a mediator, bridging the gap between technical complexity and everyday use."
  ]

  const MSCybersecurityStatements: seq<string> := [
    "I am committed to advancing my knowledge in cybersecurity and risk management.",
    "I am interested in the strategic aspects of information assurance in organizations.",
    "I am dedicated to contributing to the field of cybersecurity through research and practice.",
    "I am committed to principles, deepening my expertise to ensure online safety and privacy.",
    "I prioritize proactive thinking, always ready to defend against unseen threats."
  ]

  const MSDataAnalyticsStatements: seq<string> := [
    "I am passionate about diving deeper into data-driven decision-making processes.",
    "I am eager to explore advanced techniques in machine learning and data mining.",
    "I am focused on uncovering hidden patterns in complex data sets.",
    "I am investigative and discerning, driven to make sense of multifaceted information.",
    "I am relentless and insightful, digging deep to reveal hidden truths in the data."
  ]

  const MSITManagementStatements: seq<string> := [
    "I am interested in leading technology projects and aligning IT with business strategy.",
    "I am inclined towards understanding the managerial aspects of information technology.",
    "I am driven to enhance my leadership skills in managing technology and innovation.",
    "I have a leadership mindset, aligning technological innovation with organizational goals.",
    "I am adept at bridging diverse teams, ensuring seamless collaboration across different domains."
  ]

  /** The dictionary `program_questions`. */
  const ProgramQuestions: map<string, seq<string>> := map[
    BSComputerScience := BSComputerScienceStatements,
    BSCybersecurity := BSCybersecurityStatements,
    BSDataAnalytics := BSDataAnalyticsStatements,
    BSNetworkEngineering := BSNetworkEngineeringStatements,
    BSSoftwareEngineering := BSSoftwareEngineeringStatements,
    BSCloudComputing := BSCloudComputingStatements,
    BSInformationTechnology := BSInformationTechnologyStatements,
    MSCybersecurity := MSCybersecurityStatements,
    MSDataAnalytics := MSDataAnalyticsStatements,
    MSITManagement := MSITManagementStatements
  ]

  /** The keys of `program_questions` in the order the dictionary lists them. */
  const CatalogPrograms: seq<string> := [
    BSComputerScience,
    BSCybersecurity,
    BSDataAnalytics,
    BSNetworkEngineering,
    BSSoftwareEngineering,
    BSCloudComputing,
    BSInformationTechnology,
    MSCybersecurity,
    MSDataAnalytics,
    MSITManagement
  ]

  /** Every program of `programs` has an entry in `catalog`. */
  predicate Listed(programs: seq<string>, catalog: map<string, seq<string>>)
  {
    forall p :: p in programs ==> p in catalog
  }

  /** One program's statements, each paired with the program. */
  function ProgramPairs(program: string, questions: seq<string>): seq<(string, string)>
  {
    seq(|questions|, j requires 0 <= j < |questions| => (program, questions[j]))
  }

  /** The statements of `programs`, program by program. */
  function Flatten(programs: seq<string>, catalog: map<string, seq<string>>): seq<(string, string)>
    requires Listed(programs, catalog)
    decreases |programs|
  {
    if programs == [] then []
    else
      var last := programs[|programs| - 1];
      assert last in programs;
      Flatten(programs[..|programs| - 1], catalog) + ProgramPairs(last, catalog[last])
  }

  /** How many statements the programs have between them. */
  function QuestionCount(programs: seq<string>, catalog: map<string, seq<string>>): nat
    requires Listed(programs, catalog)
    decreases |programs|
  {
    if programs == [] then 0
    else
      var last := programs[|programs| - 1];
      assert last in programs;
      QuestionCount(programs[..|programs| - 1], catalog) + |catalog[last]|
  }

  /** What `get_flattened_questions` returns for a valid status. */
  function QuestionsFor(programs: seq<string>, catalog: map<string, seq<string>>, tier: Tier): seq<(string, string)>
    requires Listed(programs, catalog)
  {
    Flatten(FilterTier(programs, tier), catalog)
  }

  /** The flattened list has one entry per statement of the programs. */
  lemma {:induction false} FlattenLength(programs: seq<string>, catalog: map<string, seq<string>>)
    requires Listed(programs, catalog)
    ensures |Flatten(programs, catalog)| == QuestionCount(programs, catalog)
    decreases |programs|
  {
    if programs != [] {
      FlattenLength(programs[..|programs| - 1], catalog);
    }
  }

  /** A program-statement pair is listed exactly when the program is one
      of `programs` and the statement is one of that program's. */
  lemma {:induction false} FlattenMembers(programs: seq<string>, catalog: map<string, seq<string>>, p: string, q: string)
    requires Listed(programs, catalog)
    ensures (p, q) in Flatten(programs, catalog) <==> p in programs && q in catalog[p]
    decreases |programs|
  {
    if programs != [] {
      var init, last := programs[..|programs| - 1], programs[|programs| - 1];
      assert programs == init + [last];
      FlattenMembers(init, catalog, p, q);
      var pairs := ProgramPairs(last, catalog[last]);
      if p == last && q in catalog[last] {
        var j :| 0 <= j < |catalog[last]| && catalog[last][j] == q;
        assert pairs[j] == (p, q);
      }
      if (p, q) in pairs {
        var j :| 0 <= j < |pairs| && pairs[j] == (p, q);
      }
    }
  }

  /** Position: the j-th statement of the i-th program comes right after
      the statements of the programs before it. */
  lemma {:induction false} FlattenAt(programs: seq<string>, catalog: map<string, seq<string>>, i: nat, j: nat)
    requires Listed(programs, catalog)
    requires i < |programs| && j < |catalog[programs[i]]|
    ensures QuestionCount(programs[..i], catalog) + j < |Flatten(programs, catalog)|
    ensures Flatten(programs, catalog)[QuestionCount(programs[..i], catalog) + j]
            == (programs[i], catalog[programs[i]][j])
    decreases |programs|
  {
    var init := programs[..|programs| - 1];
    var last := programs[|programs| - 1];
    FlattenLength(init, catalog);
    FlattenLength(programs, catalog);
    if i == |programs| - 1 {
      assert programs[..i] == init;
    } else {
      assert init[..i] == programs[..i];
      FlattenAt(init, catalog, i, j);
    }
  }

  /** With every program carrying `n` statements, the programs have
      n times as many statements as there are programs. */
  lemma {:induction false} UniformQuestionCount(programs: seq<string>, catalog: map<string, seq<string>>, n: nat)
    requires Listed(programs, catalog)
    requires forall p :: p in programs ==> |catalog[p]| == n
    ensures QuestionCount(programs, catalog) == n * |programs|
    decreases |programs|
  {
    if programs != [] {
      var init := programs[..|programs| - 1];
      assert programs[|programs| - 1] in programs;
      assert forall p :: p in init ==> p in programs;
      UniformQuestionCount(init, catalog, n);
    }
  }

  /** The flattened list holds exactly the statements of the tier's
      programs. */
  lemma QuestionsForTier(programs: seq<string>, catalog: map<string, seq<string>>, tier: Tier, p: string, q: string)
    requires Listed(programs, catalog)
    ensures (p, q) in QuestionsFor(programs, catalog, tier) <==> p in programs && InTier(tier, p) && q in catalog[p]
  {
    FlattenMembers(FilterTier(programs, tier), catalog, p, q);
  }

  /** No pair occurs twice when no program does and no program repeats a
      statement. */
  lemma {:induction false} FlattenDistinct(programs: seq<string>, catalog: map<string, seq<string>>)
    requires Listed(programs, catalog) && Distinct(programs)
    requires forall p :: p in programs ==> Distinct(catalog[p])
    ensures Distinct(Flatten(programs, catalog))
    decreases |programs|
  {
    if programs != [] {
      var init, last := programs[..|programs| - 1], programs[|programs| - 1];
      assert programs == init + [last];
      assert Distinct(init);
      assert last in programs;
      FlattenDistinct(init, catalog);
      var front, pairs := Flatten(init, catalog), ProgramPairs(last, catalog[last]);
      forall a, b | 0 <= a < b < |front + pairs|
        ensures (front + pairs)[a] != (front + pairs)[b]
      {
        if a < |front| && b >= |front| {
          var (p, q) := front[a];
          FlattenMembers(init, catalog, p, q);
          assert front[a] in front;
          assert last !in init;
        }
      }
    }
  }

  /** The catalog names ten programs, each once. */
  lemma CatalogNames()
    ensures Distinct(CatalogPrograms) && |CatalogPrograms| == 10
  {
  }

  /** The shape of the shipped catalog: an entry for exactly the listed
      programs, each holding five distinct statements. */
  ghost predicate ShippedShape(catalog: map<string, seq<string>>)
  {
    ShippedKeys(catalog) && FiveDistinctEach(catalog)
  }

  ghost predicate ShippedKeys(catalog: map<string, seq<string>>)
  {
    forall p :: p in catalog <==> p in CatalogPrograms
  }

  ghost predicate FiveDistinctEach(catalog: map<string, seq<string>>)
  {
    forall p :: p in catalog ==> |catalog[p]| == 5 && Distinct(catalog[p])
  }

  lemma BSComputerScienceEntry()
    ensures |BSComputerScienceStatements| == 5 && Distinct(BSComputerScienceStatements)
  {
  }

  lemma BSCybersecurityEntry()
    ensures |BSCybersecurityStatements| == 5 && Distinct(BSCybersecurityStatements)
  {
  }

  lemma BSDataAnalyticsEntry()
    ensures |BSDataAnalyticsStatements| == 5 && Distinct(BSDataAnalyticsStatements)
  {
  }

  lemma BSNetworkEngineeringEntry()
    ensures |BSNetworkEngineeringStatements| == 5 && Distinct(BSNetworkEngineeringStatements)
  {
  }

  lemma BSSoftwareEngineeringEntry()
    ensures |BSSoftwareEngineeringStatements| == 5 && Distinct(BSSoftwareEngineeringStatements)
  {
  }

  lemma BSCloudComputingEntry()
    ensures |BSCloudComputingStatements| == 5 && Distinct(BSCloudComputingStatements)
  {
  }

  lemma BSInformationTechnologyEntry()
    ensures |BSInformationTechnologyStatements| == 5 && Distinct(BSInformationTechnologyStatements)
  {
  }

  lemma MSCybersecurityEntry()
    ensures |MSCybersecurityStatements| == 5 && Distinct(MSCybersecurityStatements)
  {
  }

  lemma MSDataAnalyticsEntry()
    ensures |MSDataAnalyticsStatements| == 5 && Distinct(MSDataAnalyticsStatements)
  {
  }

  lemma MSITManagementEntry()
    ensures |MSITManagementStatements| == 5 && Distinct(MSITManagementStatements)
  {
  }

  /** `program_questions` has an entry for each listed program and no other. */
  lemma ShippedCatalogKeys()
    ensures ShippedKeys(ProgramQuestions)
  {
  }

  /** Each entry of `program_questions` holds five distinct statements. */
  lemma ShippedCatalogEntries()
    ensures FiveDistinctEach(ProgramQuestions)
  {
    BSComputerScienceEntry();
    BSCybersecurityEntry();
    BSDataAnalyticsEntry();
    BSNetworkEngineeringEntry();
    BSSoftwareEngineeringEntry();
    BSCloudComputingEntry();
    BSInformationTechnologyEntry();
    MSCybersecurityEntry();
    MSDataAnalyticsEntry();
    MSITManagementEntry();
  }

  /** No undergraduate name holds the letter that starts the graduate
      qualifier. */
  lemma UndergraduateNamesLackQualifier()
    ensures forall i :: 0 <= i < 7 ==> GraduateQualifier[0] !in CatalogPrograms[i]
  {
    assert GraduateQualifier[0] == 'M';
    assert 'M' !in BachelorOfScience;
    assert 'M' !in "Computer Science";
    assert 'M' !in "Cybersecurity and Information Assurance";
    assert 'M' !in "Data Analytics";
    assert 'M' !in "Network Engineering and Security";
    assert 'M' !in "Software Engineering";
    assert 'M' !in "Cloud Computing";
    assert 'M' !in "Information Technology";
  }

  /** Every graduate name starts with the qualifier. */
  lemma GraduateNamesStartWithQualifier()
    ensures forall i :: 7 <= i < 10 ==> IsPrefix(GraduateQualifier, CatalogPrograms[i])
  {
    assert MasterOfScience == GraduateQualifier + ", ";
  }

  /** Seven undergraduate programs come first, then three graduate ones. */
  lemma CatalogTiers()
    ensures FilterTier(CatalogPrograms, Undergraduate) == CatalogPrograms[..7]
    ensures FilterTier(CatalogPrograms, Graduate) == CatalogPrograms[7..]
  {
    var under, grad := CatalogPrograms[..7], CatalogPrograms[7..];
    assert CatalogPrograms == under + grad;
    UndergraduateNamesLackQualifier();
    GraduateNamesStartWithQualifier();
    forall p | p in under
      ensures InTier(Undergraduate, p)
    {
      FirstLetterAbsent(p, GraduateQualifier);
    }
    FilterTierAppend(under, grad, Undergraduate);
    FilterTierAppend(under, grad, Graduate);
    FilterTierWhole(under, Undergraduate);
    FilterTierWhole(under, Graduate);
    FilterTierWhole(grad, Undergraduate);
    FilterTierWhole(grad, Graduate);
  }

  /** Whatever order the programs were shuffled into, with a catalog of
      the shipped shape an undergraduate is asked 35 statements and a
      graduate 15, none of them twice. */
  lemma CatalogQuestionTotals(programs: seq<string>, catalog: map<string, seq<string>>)
    requires multiset(programs) == multiset(CatalogPrograms)
    requires ShippedShape(catalog)
    ensures Listed(programs, catalog)
    ensures |QuestionsFor(programs, catalog, Undergraduate)| == 35
    ensures |QuestionsFor(programs, catalog, Graduate)| == 15
    ensures Distinct(QuestionsFor(programs, catalog, Undergraduate))
    ensures Distinct(QuestionsFor(programs, catalog, Graduate))
  {
    CatalogNames();
    CatalogTiers();
    forall p | p in programs
      ensures p in catalog
    {
      assert p in multiset(CatalogPrograms);
    }
    DistinctPermutation(programs, CatalogPrograms);
    FilterTierPermutation(programs, CatalogPrograms, Undergraduate);
    FilterTierPermutation(programs, CatalogPrograms, Graduate);
    var under := FilterTier(programs, Undergraduate);
    var grad := FilterTier(programs, Graduate);
    FilterTierDistinct(programs, Undergraduate);
    FilterTierDistinct(programs, Graduate);
    FlattenLength(under, catalog);
    FlattenLength(grad, catalog);
    UniformQuestionCount(under, catalog, 5);
    UniformQuestionCount(grad, catalog, 5);
    FlattenDistinct(under, catalog);
    FlattenDistinct(grad, catalog);
  }

  /** `get_flattened_questions(student_status)` over the shuffled program
      order `programs`. */
  method FlattenedQuestions(programs: seq<string>, catalog: map<string, seq<string>>, status: string)
    returns (r: Result<seq<(string, string)>>)
    requires Listed(programs, catalog)
    ensures r.Failure? <==> status != "Undergraduate" && status != "Graduate"
    ensures status == "Undergraduate" ==> r == Success(QuestionsFor(programs, catalog, Undergraduate))
    ensures status == "Graduate" ==> r == Success(QuestionsFor(programs, catalog, Graduate))
  {
    var parsed := ParseStatus(status);
    if parsed.Failure? {
      return Failure(parsed.error);
    }
    var tier := parsed.value;
    var filteredPrograms := FilterTier(programs, tier);

    var flattenedQuestions: seq<(string, string)> := [];
    for i := 0 to |filteredPrograms|
      invariant flattenedQuestions == Flatten(filteredPrograms[..i], catalog)
    {
      var program := filteredPrograms[i];
      var questions := catalog[program];
      for j := 0 to |questions|
        invariant flattenedQuestions == Flatten(filteredPrograms[..i], catalog) + ProgramPairs(program, questions[..j])
      {
        assert ProgramPairs(program, questions[..j + 1]) == ProgramPairs(program, questions[..j]) + [(program, questions[j])];
        flattenedQuestions := flattenedQuestions + [(program, questions[j])];
      }
      assert questions[..|questions|] == questions;
      assert filteredPrograms[..i + 1][..i] == filteredPrograms[..i];
    }
    assert filteredPrograms[..|filteredPrograms|] == filteredPrograms;
    return Success(flattenedQuestions);
  }
}
