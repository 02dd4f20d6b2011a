/** The context handed to a handler: the request and the typed match results. */
module RouteMatches {
  import opened Wrappers
  import opened MatchResults

  /** A request is its path segments; the result is the accumulator's final contents. */
  datatype RouteMatch = RouteMatch(request: seq<string>, routeMatchResult: MatchData)
  {
    function GetIntegerRouteMatchResult(paramName: string): (r: Option<int>)
      ensures r.Some? <==> paramName in routeMatchResult.integerMatches
      ensures r.Some? ==> r.value == routeMatchResult.integerMatches[paramName]
    {
      routeMatchResult.GetIntegerMatch(paramName)
    }

    function GetStringRouteMatchResult(paramName: string): (r: Option<string>)
      ensures r.Some? <==> paramName in routeMatchResult.stringMatches
      ensures r.Some? ==> r.value == routeMatchResult.stringMatches[paramName]
    {
      routeMatchResult.GetStringMatch(paramName)
    }

    function WildcardRouteMatchResult(): (r: seq<string>)
      ensures r == routeMatchResult.wildcardMatches
    {
      routeMatchResult.GetWildCardMatches()
    }
  }
}
