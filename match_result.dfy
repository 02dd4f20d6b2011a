/**
 * The per-attempt accumulator of a match (RouteMatchResult): typed parameter
 * maps and the wildcard list, updated in place while the matcher walks.
 * `MatchData` is the value of its three stores at one moment.
 */
module MatchResults {
  import opened Wrappers
  import opened Segments

  /** The three stores of a match result, as one value. */
  datatype MatchData = MatchData(
    integerMatches: map<string, int>,
    stringMatches: map<string, string>,
    wildcardMatches: seq<string>)
  {
    function GetIntegerMatch(paramName: string): (r: Option<int>)
      ensures r.Some? <==> paramName in integerMatches
      ensures r.Some? ==> r.value == integerMatches[paramName]
    {
      if paramName in integerMatches then Some(integerMatches[paramName]) else None
    }

    function GetStringMatch(paramName: string): (r: Option<string>)
      ensures r.Some? <==> paramName in stringMatches
      ensures r.Some? ==> r.value == stringMatches[paramName]
    {
      if paramName in stringMatches then Some(stringMatches[paramName]) else None
    }

    function GetWildCardMatches(): seq<string> {
      wildcardMatches
    }
  }

  const EmptyMatchData := MatchData(map[], map[], [])

  /** IResult.addToMatchResult: an integer goes to the integer map, a string to the string map. */
  function WithValue(d: MatchData, paramName: string, v: Value): MatchData {
    match v
    case IntegerResult(n) => d.(integerMatches := d.integerMatches[paramName := n])
    case StringResult(s) => d.(stringMatches := d.stringMatches[paramName := s])
  }

  /** addParametricSegment on the stores: `None` when the segment rejects the raw value. */
  function AddParametric(d: MatchData, segment: ParametricSegment, rawValue: string): Option<MatchData> {
    match GetValue(segment, rawValue)
    case None => None
    case Some(v) => Some(WithValue(d, segment.paramName, v))
  }

  /**
   * A parsed value lands under the parameter name in the store of its type
   * only: the other store, the other keys and the wildcard list stay as they were.
   */
  lemma WithValueStores(d: MatchData, paramName: string, v: Value, other: string)
    requires other != paramName
    ensures var e := WithValue(d, paramName, v);
      && e.wildcardMatches == d.wildcardMatches
      && e.GetIntegerMatch(other) == d.GetIntegerMatch(other)
      && e.GetStringMatch(other) == d.GetStringMatch(other)
      && (v.IntegerResult? ==>
            e.GetIntegerMatch(paramName) == Some(v.intValue) && e.stringMatches == d.stringMatches)
      && (v.StringResult? ==>
            e.GetStringMatch(paramName) == Some(v.stringValue) && e.integerMatches == d.integerMatches)
  {
  }

  /** A rejected value adds nothing; an accepted one is stored under the segment's name. */
  lemma AddParametricOutcome(d: MatchData, segment: ParametricSegment, rawValue: string)
    ensures AddParametric(d, segment, rawValue).None? <==> GetValue(segment, rawValue).None?
    ensures segment.StringSegment? ==>
      AddParametric(d, segment, rawValue) == Some(d.(stringMatches := d.stringMatches[segment.paramName := rawValue]))
    ensures segment.NumberSegment? && ParseInt(rawValue).Some? ==>
      AddParametric(d, segment, rawValue)
      == Some(d.(integerMatches := d.integerMatches[segment.paramName := ParseInt(rawValue).value]))
  {
  }

  /** The mutable accumulator itself. */
  class RouteMatchResult {
    var integerMatches: map<string, int>
    var stringMatches: map<string, string>
    var wildcardMatches: seq<string>

    /** The current contents of the three stores. */
    function Data(): MatchData
      reads this
    {
      MatchData(integerMatches, stringMatches, wildcardMatches)
    }

    constructor ()
      ensures Data() == EmptyMatchData
    {
      integerMatches := map[];
      stringMatches := map[];
      wildcardMatches := [];
    }

    /** Parse and store; false, with nothing stored, when the segment rejects the value. */
    method AddParametricSegment(parametricSegment: ParametricSegment, rawValue: string) returns (ok: bool)
      modifies this
      ensures ok <==> AddParametric(old(Data()), parametricSegment, rawValue).Some?
      ensures ok ==> Data() == AddParametric(old(Data()), parametricSegment, rawValue).value
      ensures !ok ==> Data() == old(Data())
    {
      var value := GetValue(parametricSegment, rawValue);
      if value.None? {
        return false;
      }
      AddToMatchResult(value.value, parametricSegment.paramName, this);
      return true;
    }

    method AddToIntegerMatches(pathSegment: string, value: int)
      modifies this
      ensures integerMatches == old(integerMatches)[pathSegment := value]
      ensures stringMatches == old(stringMatches) && wildcardMatches == old(wildcardMatches)
      ensures Data().GetIntegerMatch(pathSegment) == Some(value)
    {
      integerMatches := integerMatches[pathSegment := value];
    }

    method AddToStringMatches(pathSegment: string, value: string)
      modifies this
      ensures stringMatches == old(stringMatches)[pathSegment := value]
      ensures integerMatches == old(integerMatches) && wildcardMatches == old(wildcardMatches)
      ensures Data().GetStringMatch(pathSegment) == Some(value)
    {
      stringMatches := stringMatches[pathSegment := value];
    }

    method AddToWildcardMatches(pathSegment: string)
      modifies this
      ensures wildcardMatches == old(wildcardMatches) + [pathSegment]
      ensures integerMatches == old(integerMatches) && stringMatches == old(stringMatches)
    {
      wildcardMatches := wildcardMatches + [pathSegment];
    }
  }

  /** IResult.addToMatchResult on the accumulator object. */
  method AddToMatchResult(v: Value, paramName: string, res: RouteMatchResult)
    modifies res
    ensures res.Data() == WithValue(old(res.Data()), paramName, v)
  {
    match v
    case IntegerResult(n) => res.AddToIntegerMatches(paramName, n);
    case StringResult(s) => res.AddToStringMatches(paramName, s);
  }
}
