/** Django's URL resolver seen from outside: a partial table from a route
    reference, looked up with a language active, to a path. */
module Routing {
  import opened Wrappers

  /** A reverse lookup: the active language, the view name and its parameters. */
  datatype RouteQuery = RouteQuery(language: string, name: string, args: seq<string>, kwargs: map<string, string>)

  /** The routing table; `None` is a lookup that raises `NoReverseMatch`. */
  type Routes = RouteQuery -> Option<string>

  /** The `NoReverseMatch` exceptions the package can see: a lookup that found
      nothing (naming that lookup), or a template tag given an empty view name. */
  datatype NoReverseMatch = NotFound(query: RouteQuery) | EmptyViewName

  /** `django.core.urlresolvers.reverse` on one query. */
  function Reverse(routes: Routes, q: RouteQuery): (r: Result<string, NoReverseMatch>)
    ensures r.Ok? <==> routes(q).Some?
    ensures r.Ok? ==> r.value == routes(q).value
    ensures r.Err? ==> r.error == NotFound(q)
  {
    if routes(q).Some? then Ok(routes(q).value) else Err(NotFound(q))
  }

  /** The query for a bare view name: no positional and no keyword arguments. */
  function BareQuery(language: string, name: string): RouteQuery
  {
    RouteQuery(language, name, [], map[])
  }
}
