/**
 The package manager of `maple-core/package/src/lib.rs`: an append-only list
 of named UAL workflows with a first-match lookup by name, and the built-in
 software-factory workflow.

 File reads and writes and the JSON (de)serialisation done by `import` and
 `export` are parameters: `import` receives the result of reading the file
 and a decoder, `export` an encoder and returns the text it would write.
 */
module Packages {
  import opened Results
  import opened Strings
  import opened UalParser

  /** `MaplePackage`: a named, described list of UAL command lines. */
  datatype Package = Package(name: string, description: string, workflow: seq<string>)

  /** `PackageManager`: the packages in insertion order. */
  datatype Manager = Manager(packages: seq<Package>)

  /** `PackageManager::new`. */
  function NewManager(): (r: Manager)
    ensures |r.packages| == 0
  {
    Manager([])
  }

  /** `PackageManager::add_package`: appends at the end. */
  function AddPackage(m: Manager, p: Package): (r: Manager)
    ensures |r.packages| == |m.packages| + 1
    ensures r.packages[..|m.packages|] == m.packages && r.packages[|m.packages|] == p
  {
    Manager(m.packages + [p])
  }

  /** Index of the first package called `name`, if any. */
  function FirstNamed(ps: seq<Package>, name: string): (r: Option<nat>)
    ensures r.None? <==> forall j :: 0 <= j < |ps| ==> ps[j].name != name
    ensures r.Some? ==>
      && r.value < |ps| && ps[r.value].name == name
      && forall j :: 0 <= j < r.value ==> ps[j].name != name
  {
    if |ps| == 0 then None
    else if ps[0].name == name then Some(0)
    else
      match FirstNamed(ps[1..], name)
      case None => None
      case Some(i) => Some(i + 1)
  }

  /**
   `PackageManager::get`: the first package, in insertion order, whose name
   is `name`; `None` when there is none.
   */
  function Get(m: Manager, name: string): (r: Option<Package>)
    ensures r.None? <==> forall j :: 0 <= j < |m.packages| ==> m.packages[j].name != name
    ensures r.Some? ==> r.value.name == name && r.value in m.packages
  {
    match FirstNamed(m.packages, name)
    case None => None
    case Some(i) => Some(m.packages[i])
  }

  /** `get` returns the package at the first index that carries the name. */
  lemma GetFirst(m: Manager, name: string, i: nat)
    requires i < |m.packages| && m.packages[i].name == name
    requires forall j :: 0 <= j < i ==> m.packages[j].name != name
    ensures Get(m, name) == Some(m.packages[i])
  {
  }

  /** A fresh manager finds no package. */
  lemma GetOnNew(name: string)
    ensures Get(NewManager(), name) == None
  {
  }

  lemma {:induction false} FirstNamedAppend(ps: seq<Package>, p: Package, name: string)
    ensures FirstNamed(ps + [p], name) ==
      match FirstNamed(ps, name)
      case Some(i) => Some(i)
      case None => if p.name == name then Some(|ps|) else None
  {
    if |ps| > 0 {
      assert (ps + [p])[1..] == ps[1..] + [p];
      FirstNamedAppend(ps[1..], p, name);
    }
  }

  /**
   Adding a package never changes the answer for a name already present: a
   later package with the same name is shadowed. A new name is found.
   */
  lemma GetAfterAdd(m: Manager, p: Package, name: string)
    ensures Get(m, name).Some? ==> Get(AddPackage(m, p), name) == Get(m, name)
    ensures Get(m, name).None? ==>
      Get(AddPackage(m, p), name) == (if p.name == name then Some(p) else None)
  {
    FirstNamedAppend(m.packages, p, name);
    var ps := m.packages + [p];
    match FirstNamed(m.packages, name)
    case Some(i) => assert ps[i] == m.packages[i];
    case None =>
  }

  /**
   `PackageManager::import`: `content` is the outcome of reading the file and
   `decode` the JSON decoder. A read or decode failure is returned and the
   list is unchanged; otherwise the decoded package is appended.
   */
  function Import(m: Manager, content: Result<string, string>,
                  decode: string -> Result<Package, string>): (r: (Manager, Result<(), string>))
    ensures r.1.Err? ==> r.0 == m
    ensures r.1.Ok? <==> content.Ok? && decode(content.value).Ok?
    ensures r.1.Ok? ==> r.0 == AddPackage(m, decode(content.value).value)
  {
    match content
    case Err(e) => (m, Err(e))
    case Ok(text) =>
      match decode(text)
      case Err(e) => (m, Err(e))
      case Ok(p) => (AddPackage(m, p), Ok(()))
  }

  /**
   `PackageManager::export`: the JSON text of a package built from the
   arguments is written to the file; `write` is the outcome of writing a
   text. The result is the text the file now holds, or the first error. The
   manager takes no part.
   */
  function Export(name: string, description: string, workflow: seq<string>,
                  encode: Package -> Result<string, string>,
                  write: string -> Result<(), string>): (r: Result<string, string>)
    ensures encode(Package(name, description, workflow)).Err? ==>
      r == Err(encode(Package(name, description, workflow)).error)
    ensures r.Ok? <==>
      encode(Package(name, description, workflow)).Ok? && write(encode(Package(name, description, workflow)).value).Ok?
    ensures r.Ok? ==> r.value == encode(Package(name, description, workflow)).value
  {
    match encode(Package(name, description, workflow))
    case Err(e) => Err(e)
    case Ok(json) =>
      match write(json)
      case Err(e) => Err(e)
      case Ok(_) => Ok(json)
  }

  /** `decode` undoes `encode` on every text `encode` produces. */
  ghost predicate CodecRoundTrips(encode: Package -> Result<string, string>,
                                  decode: string -> Result<Package, string>) {
    forall p :: encode(p).Ok? ==> decode(encode(p).value) == Ok(p)
  }

  /**
   Exporting a workflow and importing the written text appends exactly the
   exported package, which `get` then finds unless an earlier package has
   the same name.
   */
  lemma ExportThenImport(m: Manager, name: string, description: string, workflow: seq<string>,
                         encode: Package -> Result<string, string>,
                         decode: string -> Result<Package, string>,
                         write: string -> Result<(), string>)
    requires CodecRoundTrips(encode, decode)
    requires Export(name, description, workflow, encode, write).Ok?
    ensures var r := Import(m, Export(name, description, workflow, encode, write), decode);
      && r.1 == Ok(())
      && r.0 == AddPackage(m, Package(name, description, workflow))
      && (Get(m, name).None? ==> Get(r.0, name) == Some(Package(name, description, workflow)))
  {
    GetAfterAdd(m, Package(name, description, workflow), name);
  }

  /**
   `default_software_factory`: the built-in seven-step workflow. Each line is
   written as its words separated by single spaces.
   */
  function SoftwareFactory(): (p: Package)
    ensures p.name == "software_factory" && p.description == "Software Factory workflow for MAPLE"
    ensures |p.workflow| == 7
  {
    Package(
      "software_factory",
      "Software Factory workflow for MAPLE",
      [DefineProduct(), Requirements(), Plan(), SetupInfra(), DevelopApp(), TestApp(), Release()])
  }

  // The seven lines of the built-in workflow, in order.
  function DefineProduct(): string {
    JoinSpaced(["EXEC", "define_product", "product_manager"])
  }
  function Requirements(): string {
    JoinSpaced(["EXEC", "requirements", "architect", "WITH", "details=auth,tasks,realtime"])
  }
  function Plan(): string {
    JoinSpaced(["EXEC", "plan", "project_manager", "WITH", "arch=rest,react,postgres,websocket"])
  }
  function SetupInfra(): string {
    JoinSpaced(["EXEC", "setup_infra", "system_engineer"])
  }
  function DevelopApp(): string {
    JoinSpaced(["EXEC", "develop_app", "app_developer", "WITH", "features=auth,tasks,realtime"])
  }
  function TestApp(): string {
    JoinSpaced(["EXEC", "test_app", "qa_engineer"])
  }
  function Release(): string {
    JoinSpaced(["EXEC", "release", "system_engineer", "WITH", "marketing=enabled"])
  }

  // Each line is the literal text of the source, one lemma per line.

  lemma DefineProductText()
    ensures DefineProduct() == "EXEC define_product product_manager"
  {
  }

  lemma SetupInfraText()
    ensures SetupInfra() == "EXEC setup_infra system_engineer"
  {
  }

  lemma TestAppText()
    ensures TestApp() == "EXEC test_app qa_engineer"
  {
  }

  lemma RequirementsHead()
    ensures "EXEC requirements architect WITH" == "EXEC" + " " + "requirements" + " " + "architect" + " " + "WITH"
  {
  }

  lemma RequirementsFlat()
    ensures "EXEC requirements architect WITH details=auth,tasks,realtime" == "EXEC requirements architect WITH" + " " + "details=auth,tasks,realtime"
  {
  }

  lemma RequirementsText()
    ensures Requirements() == "EXEC requirements architect WITH details=auth,tasks,realtime"
  {
    JoinFive("EXEC", "requirements", "architect", "WITH", "details=auth,tasks,realtime");
    RequirementsHead();
    RequirementsFlat();
  }

  lemma PlanHead()
    ensures "EXEC plan project_manager WITH" == "EXEC" + " " + "plan" + " " + "project_manager" + " " + "WITH"
  {
  }

  lemma PlanFlat()
    ensures "EXEC plan project_manager WITH arch=rest,react,postgres,websocket" == "EXEC plan project_manager WITH" + " " + "arch=rest,react,postgres,websocket"
  {
  }

  lemma PlanText()
    ensures Plan() == "EXEC plan project_manager WITH arch=rest,react,postgres,websocket"
  {
    JoinFive("EXEC", "plan", "project_manager", "WITH", "arch=rest,react,postgres,websocket");
    PlanHead();
    PlanFlat();
  }

  lemma DevelopAppHead()
    ensures "EXEC develop_app app_developer WITH" == "EXEC" + " " + "develop_app" + " " + "app_developer" + " " + "WITH"
  {
  }

  lemma DevelopAppFlat()
    ensures "EXEC develop_app app_developer WITH features=auth,tasks,realtime" == "EXEC develop_app app_developer WITH" + " " + "features=auth,tasks,realtime"
  {
  }

  lemma DevelopAppText()
    ensures DevelopApp() == "EXEC develop_app app_developer WITH features=auth,tasks,realtime"
  {
    JoinFive("EXEC", "develop_app", "app_developer", "WITH", "features=auth,tasks,realtime");
    DevelopAppHead();
    DevelopAppFlat();
  }

  lemma ReleaseHead()
    ensures "EXEC release system_engineer WITH" == "EXEC" + " " + "release" + " " + "system_engineer" + " " + "WITH"
  {
  }

  lemma ReleaseFlat()
    ensures "EXEC release system_engineer WITH marketing=enabled" == "EXEC release system_engineer WITH" + " " + "marketing=enabled"
  {
  }

  lemma ReleaseText()
    ensures Release() == "EXEC release system_engineer WITH marketing=enabled"
  {
    JoinFive("EXEC", "release", "system_engineer", "WITH", "marketing=enabled");
    ReleaseHead();
    ReleaseFlat();
  }

  // The statement each line of the built-in workflow stands for, one lemma per
  // line. The facts about the literal words are proved apart, in small lemmas,
  // so that each proof stays small.

  lemma DefineProductStep()
    ensures Parse(DefineProduct())
         == Ok(Statement("EXEC", "define_product", "product_manager", []))
  {
    ParseThreeWords("EXEC", "define_product", "product_manager");
  }

  lemma RequirementsWords()
    ensures IsWord("EXEC") && IsWord("requirements") && IsWord("architect")
  {
  }

  lemma RequirementsPair()
    ensures IsWord("details=auth,tasks,realtime")
  {
  }

  lemma RequirementsSplit()
    ensures '=' !in "details" && "details=auth,tasks,realtime" == "details" + "=" + "auth,tasks,realtime"
  {
  }

  lemma RequirementsStep()
    ensures Parse(Requirements())
         == Ok(Statement("EXEC", "requirements", "architect", [("details", "auth,tasks,realtime")]))
  {
    RequirementsWords();
    RequirementsPair();
    RequirementsSplit();
    ParseWithClause("EXEC", "requirements", "architect", "details=auth,tasks,realtime",
                   "details", "auth,tasks,realtime");
  }

  lemma PlanWords()
    ensures IsWord("EXEC") && IsWord("plan") && IsWord("project_manager")
  {
  }

  lemma PlanPair()
    ensures IsWord("arch=rest,react,postgres,websocket")
  {
  }

  lemma PlanSplit()
    ensures '=' !in "arch" && "arch=rest,react,postgres,websocket" == "arch" + "=" + "rest,react,postgres,websocket"
  {
  }

  lemma PlanStep()
    ensures Parse(Plan())
         == Ok(Statement("EXEC", "plan", "project_manager", [("arch", "rest,react,postgres,websocket")]))
  {
    PlanWords();
    PlanPair();
    PlanSplit();
    ParseWithClause("EXEC", "plan", "project_manager", "arch=rest,react,postgres,websocket",
                   "arch", "rest,react,postgres,websocket");
  }

  lemma SetupInfraStep()
    ensures Parse(SetupInfra())
         == Ok(Statement("EXEC", "setup_infra", "system_engineer", []))
  {
    ParseThreeWords("EXEC", "setup_infra", "system_engineer");
  }

  lemma DevelopAppWords()
    ensures IsWord("EXEC") && IsWord("develop_app") && IsWord("app_developer")
  {
  }

  lemma DevelopAppPair()
    ensures IsWord("features=auth,tasks,realtime")
  {
  }

  lemma DevelopAppSplit()
    ensures '=' !in "features" && "features=auth,tasks,realtime" == "features" + "=" + "auth,tasks,realtime"
  {
  }

  lemma DevelopAppStep()
    ensures Parse(DevelopApp())
         == Ok(Statement("EXEC", "develop_app", "app_developer", [("features", "auth,tasks,realtime")]))
  {
    DevelopAppWords();
    DevelopAppPair();
    DevelopAppSplit();
    ParseWithClause("EXEC", "develop_app", "app_developer", "features=auth,tasks,realtime",
                   "features", "auth,tasks,realtime");
  }

  lemma TestAppStep()
    ensures Parse(TestApp())
         == Ok(Statement("EXEC", "test_app", "qa_engineer", []))
  {
    ParseThreeWords("EXEC", "test_app", "qa_engineer");
  }

  lemma ReleaseWords()
    ensures IsWord("EXEC") && IsWord("release") && IsWord("system_engineer")
  {
  }

  lemma ReleasePair()
    ensures IsWord("marketing=enabled")
  {
  }

  lemma ReleaseSplit()
    ensures '=' !in "marketing" && "marketing=enabled" == "marketing" + "=" + "enabled"
  {
  }

  lemma ReleaseStep()
    ensures Parse(Release())
         == Ok(Statement("EXEC", "release", "system_engineer", [("marketing", "enabled")]))
  {
    ReleaseWords();
    ReleasePair();
    ReleaseSplit();
    ParseWithClause("EXEC", "release", "system_engineer", "marketing=enabled", "marketing", "enabled");
  }

  /** Every one of the seven lines of the built-in workflow parses. */
  lemma SoftwareFactoryParses()
    ensures && Parse(DefineProduct()).Ok? && Parse(Requirements()).Ok? && Parse(Plan()).Ok?
            && Parse(SetupInfra()).Ok? && Parse(DevelopApp()).Ok? && Parse(TestApp()).Ok?
            && Parse(Release()).Ok?
  {
    DefineProductStep();
    RequirementsStep();
    PlanStep();
    SetupInfraStep();
    DevelopAppStep();
    TestAppStep();
    ReleaseStep();
  }

  /** Every line of a workflow is accepted by the UAL parser. */
  predicate EveryLineParses(ws: seq<string>) {
    forall i :: 0 <= i < |ws| ==> Parse(ws[i]).Ok?
  }

  lemma EveryLineParsesCons(w: string, ws: seq<string>)
    requires Parse(w).Ok? && EveryLineParses(ws)
    ensures EveryLineParses([w] + ws)
  {
    assert forall i :: 1 <= i < |[w] + ws| ==> ([w] + ws)[i] == ws[i - 1];
  }

  /** The built-in package's name and its workflow, line by line. */
  lemma SoftwareFactoryLines()
    ensures SoftwareFactory().name == "software_factory"
    ensures SoftwareFactory().workflow
         == [DefineProduct()] + ([Requirements()] + ([Plan()] + ([SetupInfra()]
          + ([DevelopApp()] + ([TestApp()] + ([Release()] + []))))))
  {
  }

  /** The built-in workflow holds the seven command lines of the source, in order. */
  lemma SoftwareFactoryText()
    ensures SoftwareFactory().workflow == [
      "EXEC define_product product_manager",
      "EXEC requirements architect WITH details=auth,tasks,realtime",
      "EXEC plan project_manager WITH arch=rest,react,postgres,websocket",
      "EXEC setup_infra system_engineer",
      "EXEC develop_app app_developer WITH features=auth,tasks,realtime",
      "EXEC test_app qa_engineer",
      "EXEC release system_engineer WITH marketing=enabled"]
  {
    DefineProductText();
    RequirementsText();
    PlanText();
    SetupInfraText();
    DevelopAppText();
    TestAppText();
    ReleaseText();
  }

  /**
   `default_software_factory` is the package `software_factory` with seven
   workflow lines, every one of which parses.
   */
  lemma SoftwareFactoryWorkflowParses()
    ensures SoftwareFactory().name == "software_factory" && |SoftwareFactory().workflow| == 7
    ensures EveryLineParses(SoftwareFactory().workflow)
  {
    SoftwareFactoryLines();
    SoftwareFactoryParses();
    var w6 := [Release()] + [];
    var w5 := [TestApp()] + w6;
    var w4 := [DevelopApp()] + w5;
    var w3 := [SetupInfra()] + w4;
    var w2 := [Plan()] + w3;
    var w1 := [Requirements()] + w2;
    EveryLineParsesCons(Release(), []);
    EveryLineParsesCons(TestApp(), w6);
    EveryLineParsesCons(DevelopApp(), w5);
    EveryLineParsesCons(SetupInfra(), w4);
    EveryLineParsesCons(Plan(), w3);
    EveryLineParsesCons(Requirements(), w2);
    EveryLineParsesCons(DefineProduct(), w1);
  }

  /**
   The second line of the built-in workflow is addressed to `architect` and
   carries the one parameter `details`; the bare `WITH` leaves no trace.
   */
  lemma SoftwareFactoryArchitectLine()
    ensures Parse(SoftwareFactory().workflow[1])
         == Ok(Statement("EXEC", "requirements", "architect", [("details", "auth,tasks,realtime")]))
  {
    SoftwareFactoryLines();
    RequirementsStep();
  }
}
