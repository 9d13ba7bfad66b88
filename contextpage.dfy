/** The embedded context page: it reads the calling tool and the entity it is
    about from the query string, refuses an unknown tool, and builds the
    context record the calendar is opened with. */
module ContextPage {
  import opened Wrappers

  /** The tools that may embed the calendar. */
  const ValidTools: seq<string> := ["rTrips", "rNetwork", "rMaps", "rCart", "rNotes", "standalone"]

  /** The query string: `searchParams.get(name)` is `params[name]` when present. */
  type Params = map<string, string>

  /** The date range as the two strings handed to `new Date`. */
  datatype DateRange = DateRange(start: string, end: string)

  /** The context record: the tool, the entity (absent when not given or
      empty), the date range and the tab to open first. */
  datatype Context = Context(
    tool: string,
    entityId: Option<string>,
    entityType: Option<string>,
    dateRange: Option<DateRange>,
    defaultTab: string)

  /** `searchParams.get(name)`. */
  function Get(params: Params, name: string): Option<string> {
    if name in params then Some(params[name]) else None
  }

  /** `searchParams.get(name) || undefined`. */
  function NonEmpty(v: Option<string>): (r: Option<string>)
    ensures r.Some? <==> Truthy(v)
    ensures r.Some? ==> r == v && r.value != ""
  {
    if Truthy(v) then v else None
  }

  /** ContextPageInner: no context (the error page) unless `tool` names one of
      the valid tools; otherwise the context built from the parameters. */
  function ContextFor(params: Params): (r: Option<Context>)
    ensures r.Some? <==> "tool" in params && params["tool"] in ValidTools
    ensures r.Some? ==> r.value.tool == params["tool"] && r.value.tool in ValidTools
    ensures r.Some? ==> r.value.entityId == NonEmpty(Get(params, "entityId"))
    ensures r.Some? ==> r.value.entityType == NonEmpty(Get(params, "entityType"))
    ensures r.Some? ==> (r.value.dateRange.Some? <==>
                           Truthy(Get(params, "start")) && Truthy(Get(params, "end")))
    ensures r.Some? && r.value.dateRange.Some? ==>
              r.value.dateRange.value == DateRange(params["start"], params["end"])
    ensures r.Some? ==> r.value.defaultTab == (if Truthy(Get(params, "tab")) then params["tab"] else "context")
  {
    var tool := Get(params, "tool");
    if !Truthy(tool) || tool.value !in ValidTools then None
    else
      var start := Get(params, "start");
      var end := Get(params, "end");
      var tab := Get(params, "tab");
      Some(Context(
        tool.value,
        NonEmpty(Get(params, "entityId")),
        NonEmpty(Get(params, "entityType")),
        if Truthy(start) && Truthy(end) then Some(DateRange(start.value, end.value)) else None,
        if Truthy(tab) then tab.value else "context"))
  }

  /** Whether a context is one the page can build: a valid tool, entity fields
      and dates that are absent or not empty, and a tab that is not empty. */
  predicate WellFormed(c: Context) {
    c.tool in ValidTools &&
    (c.entityId.Some? ==> c.entityId.value != "") &&
    (c.entityType.Some? ==> c.entityType.value != "") &&
    (c.dateRange.Some? ==> c.dateRange.value.start != "" && c.dateRange.value.end != "") &&
    c.defaultTab != ""
  }

  /** The query string that asks for a context: the inverse of `ContextFor`. */
  function ParamsOf(c: Context): Params {
    var withTool := map["tool" := c.tool, "tab" := c.defaultTab];
    var withId := if c.entityId.Some? then withTool["entityId" := c.entityId.value] else withTool;
    var withType := if c.entityType.Some? then withId["entityType" := c.entityType.value] else withId;
    if c.dateRange.Some? then withType["start" := c.dateRange.value.start]["end" := c.dateRange.value.end]
    else withType
  }

  /** Every context the page builds is well formed. */
  lemma ContextForWellFormed(params: Params)
    requires ContextFor(params).Some?
    ensures WellFormed(ContextFor(params).value)
  {
  }

  /** Reading back the query string of a well-formed context gives that context. */
  lemma ContextRoundTrip(c: Context)
    requires WellFormed(c)
    ensures ContextFor(ParamsOf(c)) == Some(c)
  {
    var p := ParamsOf(c);
    assert Get(p, "tool") == Some(c.tool);
    assert Get(p, "tab") == Some(c.defaultTab);
    assert NonEmpty(Get(p, "entityId")) == c.entityId;
    assert NonEmpty(Get(p, "entityType")) == c.entityType;
    if c.dateRange.Some? {
      assert Get(p, "start") == Some(c.dateRange.value.start);
      assert Get(p, "end") == Some(c.dateRange.value.end);
    } else {
      assert "start" !in p;
    }
  }

  /** A tool that is missing, empty or unknown always gives the error page,
      whatever else the query string holds. */
  lemma UnknownToolRefused(params: Params, tool: string)
    requires tool !in ValidTools
    ensures ContextFor(params["tool" := tool]) == None
    ensures ContextFor(params - {"tool"}) == None
  {
  }
}
