/**
 * The two `FileReader` callbacks of `onDrop`. Each drop owns two text slots,
 * both initially "". A successful read stores its text and asks for assembly
 * only when the OTHER slot is already truthy (non-empty); a failed read only
 * reports an error. The reads may complete in either order.
 */
module ReaderJoin {
  import opened Table
  import opened DropBundle

  /** The captured `jsonText` and `atlasText` of one drop. */
  datatype Gate = Gate(jsonText: string, atlasText: string)

  /** The slots when the two reads start. */
  const Idle := Gate("", "")

  /** One reader completing: `onload` with the text read, or `onerror`. */
  datatype Completion = JsonLoaded(text: string) | AtlasLoaded(text: string) | JsonFailed | AtlasFailed

  /** The slots after a completion, and whether that completion parses and assembles. */
  datatype StepResult = StepResult(gate: Gate, assemble: bool)

  /** One callback. */
  function Step(g: Gate, c: Completion): StepResult {
    match c
    case JsonLoaded(t) => StepResult(g.(jsonText := t), g.atlasText != "")
    case AtlasLoaded(t) => StepResult(g.(atlasText := t), g.jsonText != "")
    case JsonFailed => StepResult(g, false)
    case AtlasFailed => StepResult(g, false)
  }

  /** The slots after a run of completions, and the slots seen by every assembly it triggered. */
  datatype RunResult = RunResult(gate: Gate, assemblies: seq<Gate>)

  /** The completions `cs`, in order, from the idle slots. */
  function Run(cs: seq<Completion>): RunResult {
    if cs == [] then RunResult(Idle, [])
    else
      var before := Run(cs[..|cs| - 1]);
      var s := Step(before.gate, cs[|cs| - 1]);
      RunResult(s.gate, before.assemblies + if s.assemble then [s.gate] else [])
  }

  /** How many times the skeleton reader delivered a text. */
  function JsonLoads(cs: seq<Completion>): nat {
    if cs == [] then 0 else JsonLoads(cs[..|cs| - 1]) + if cs[|cs| - 1].JsonLoaded? then 1 else 0
  }

  /** How many times the atlas reader delivered a text. */
  function AtlasLoads(cs: seq<Completion>): nat {
    if cs == [] then 0 else AtlasLoads(cs[..|cs| - 1]) + if cs[|cs| - 1].AtlasLoaded? then 1 else 0
  }

  /** The skeleton text delivered last, or "" if none was. */
  function JsonTextOf(cs: seq<Completion>): string {
    if cs == [] then ""
    else if cs[|cs| - 1].JsonLoaded? then cs[|cs| - 1].text
    else JsonTextOf(cs[..|cs| - 1])
  }

  /** The atlas text delivered last, or "" if none was. */
  function AtlasTextOf(cs: seq<Completion>): string {
    if cs == [] then ""
    else if cs[|cs| - 1].AtlasLoaded? then cs[|cs| - 1].text
    else AtlasTextOf(cs[..|cs| - 1])
  }

  /** The slots always hold the texts delivered so far. */
  lemma {:induction false} RunHoldsTexts(cs: seq<Completion>)
    ensures Run(cs).gate == Gate(JsonTextOf(cs), AtlasTextOf(cs))
    ensures JsonTextOf(cs) != "" ==> JsonLoads(cs) > 0
    ensures AtlasTextOf(cs) != "" ==> AtlasLoads(cs) > 0
  {
    if cs != [] {
      RunHoldsTexts(cs[..|cs| - 1]);
    }
  }

  /** Without a delivered skeleton text, or without a delivered atlas text, nothing is ever assembled. */
  lemma {:induction false} NoAssemblyWithoutBothReads(cs: seq<Completion>)
    requires JsonLoads(cs) == 0 || AtlasLoads(cs) == 0
    ensures Run(cs).assemblies == []
  {
    if cs != [] {
      var init := cs[..|cs| - 1];
      NoAssemblyWithoutBothReads(init);
      RunHoldsTexts(init);
    }
  }

  /**
   * When each reader delivers at most once, assembly runs at most once, and
   * when it runs both readers have delivered and it sees both texts.
   */
  lemma {:induction false} AssemblesAtMostOnce(cs: seq<Completion>)
    requires JsonLoads(cs) <= 1 && AtlasLoads(cs) <= 1
    ensures |Run(cs).assemblies| <= 1
    ensures |Run(cs).assemblies| == 1 ==>
      JsonLoads(cs) == 1 && AtlasLoads(cs) == 1 && Run(cs).assemblies[0] == Gate(JsonTextOf(cs), AtlasTextOf(cs))
  {
    if cs != [] {
      var init, last := cs[..|cs| - 1], cs[|cs| - 1];
      AssemblesAtMostOnce(init);
      RunHoldsTexts(init);
      if last.JsonLoaded? {
        NoAssemblyWithoutBothReads(init);
      } else if last.AtlasLoaded? {
        NoAssemblyWithoutBothReads(init);
      }
    }
  }

  /** When both readers deliver once and both texts are non-empty, assembly runs exactly once. */
  lemma {:induction false} AssemblesOnceWhenBothNonEmpty(cs: seq<Completion>)
    requires JsonLoads(cs) == 1 && AtlasLoads(cs) == 1
    requires JsonTextOf(cs) != "" && AtlasTextOf(cs) != ""
    ensures Run(cs).assemblies == [Gate(JsonTextOf(cs), AtlasTextOf(cs))]
  {
    var init, last := cs[..|cs| - 1], cs[|cs| - 1];
    RunHoldsTexts(init);
    if last.JsonLoaded? || last.AtlasLoaded? {
      NoAssemblyWithoutBothReads(init);
    } else {
      AssemblesOnceWhenBothNonEmpty(init);
    }
  }

  /**
   * The two arrival orders. The second completion assembles exactly when the
   * FIRST text to arrive is non-empty; the text arriving second is not checked.
   */
  lemma BothOrders(json: string, atlas: string)
    ensures Run([JsonLoaded(json), AtlasLoaded(atlas)]).assemblies ==
      if json != "" then [Gate(json, atlas)] else []
    ensures Run([AtlasLoaded(atlas), JsonLoaded(json)]).assemblies ==
      if atlas != "" then [Gate(json, atlas)] else []
  {
    assert [JsonLoaded(json)][..0] == [] && [AtlasLoaded(atlas)][..0] == [];
    assert Run([JsonLoaded(json)]) == RunResult(Gate(json, ""), []);
    assert Run([AtlasLoaded(atlas)]) == RunResult(Gate("", atlas), []);
    assert [JsonLoaded(json), AtlasLoaded(atlas)][..1] == [JsonLoaded(json)];
    assert [AtlasLoaded(atlas), JsonLoaded(json)][..1] == [AtlasLoaded(atlas)];
  }

  /** The state captured by one drop's reader callbacks. */
  class Readers {
    /** The files being read: `filesMap[jsonFileName]` and `filesMap[atlasFileName]`. */
    const skeletonFile: DroppedFile
    const atlasFile: DroppedFile
    /** The `fileURLs` object the callbacks hand to assembly. */
    const fileUrls: Table<string>
    var jsonText: string
    var atlasText: string

    function Slots(): Gate
      reads this
    {
      Gate(jsonText, atlasText)
    }

    constructor (skeletonFile: DroppedFile, atlasFile: DroppedFile, fileUrls: Table<string>)
      ensures this.skeletonFile == skeletonFile && this.atlasFile == atlasFile && this.fileUrls == fileUrls
      ensures Slots() == Idle
    {
      this.skeletonFile, this.atlasFile, this.fileUrls := skeletonFile, atlasFile, fileUrls;
      jsonText, atlasText := "", "";
    }

    /** `readerJSON.onload`: store the skeleton text; assemble if the atlas text is already truthy. */
    method OnJsonLoad(text: string) returns (assemble: bool)
      modifies this
      ensures Slots() == Step(old(Slots()), JsonLoaded(text)).gate
      ensures assemble == Step(old(Slots()), JsonLoaded(text)).assemble
    {
      jsonText := text;
      assemble := atlasText != "";
    }

    /** `readerAtlas.onload`: store the atlas text; assemble if the skeleton text is already truthy. */
    method OnAtlasLoad(text: string) returns (assemble: bool)
      modifies this
      ensures Slots() == Step(old(Slots()), AtlasLoaded(text)).gate
      ensures assemble == Step(old(Slots()), AtlasLoaded(text)).assemble
    {
      atlasText := text;
      assemble := jsonText != "";
    }
  }
}
