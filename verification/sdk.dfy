/** The records the dashboard receives from the workflow platform's SDK, reduced to
    the fields the modelled logic reads. Every remote call is outside the model:
    its result arrives as an argument. */
module Sdk {
  import opened Wrappers
  import opened Strings

  /** A JavaScript value as the SDK hands it over (variable values, history attributes).
      Numbers are integers here; `JObject` stands for any plain object. */
  datatype JsValue =
    | JNull | JUndefined | JBool(b: bool) | JInt(i: int) | JString(s: string)
    | JArray(items: seq<JsValue>) | JObject

  /** `String(v)`; an array renders as its elements joined by commas, with null and
      undefined elements rendered empty */
  function JsString(v: JsValue): (r: string)
    ensures v.JString? ==> r == v.s
    ensures v.JInt? ==> ParseInt(r) == Some(v.i)
    ensures v == JArray([]) ==> r == ""
    decreases v
  {
    match v
    case JArray(items) =>
      Join(seq(|items|, i requires 0 <= i < |items| =>
             if items[i].JNull? || items[i].JUndefined? then "" else JsString(items[i])), ',')
    case JNull => "null"
    case JUndefined => "undefined"
    case JBool(b) => if b then "true" else "false"
    case JInt(i) => IntToString(i)
    case JString(s) => s
    case JObject => "[object Object]"
  }

  /** JavaScript truthiness: null, undefined, false, 0 and "" are falsy, and every
      array or object is truthy, even an empty one */
  predicate JsTruthy(v: JsValue) {
    match v
    case JNull => false
    case JUndefined => false
    case JBool(b) => b
    case JInt(i) => i != 0
    case JString(s) => s != ""
    case JArray(_) => true
    case JObject => true
  }

  /** A process instance as listed by the instance API. `startedTime` is the start
      date already converted to milliseconds, or None when it does not parse. */
  datatype ProcessInstance = ProcessInstance(
    instanceId: string,
    packageId: string,
    folderKey: string,
    latestRunStatus: Option<string>,
    startedByUser: Option<string>,
    startedTime: Option<int>,
    completedTime: Option<string>)

  /** A process definition with its per-status instance counts */
  datatype ProcessSummary = ProcessSummary(
    processKey: string,
    packageId: string,
    folderName: string,
    runningCount: int,
    completedCount: int,
    faultedCount: int,
    pendingCount: int,
    pausedCount: int,
    cancelledCount: int,
    versionCount: int)

  /** One executed BPMN element as reported by the variables endpoint */
  datatype Element = Element(elementId: Option<string>)

  /** A global variable of an instance */
  datatype Variable = Variable(name: string, value: JsValue, vtype: Option<string>, source: Option<string>)

  /** The variables endpoint's response */
  datatype VariablesResponse = VariablesResponse(elements: seq<Element>, globalVariables: seq<Variable>)

  /** An execution-history entry; its attributes are already parsed into a map,
      and None stands for null/undefined attributes */
  datatype HistoryEntry = HistoryEntry(attributes: Option<map<string, JsValue>>)
}
