/** Shared value types of the route-transition library: the transition roles,
    route states emitted by the router, and JavaScript's nullable strings. */
module Model {

  datatype Option<+T> = None | Some(value: T)

  datatype Result<+T, +E> = Ok(value: T) | Err(error: E)

  /** The eight roles a mounted route can play (`RouteTransitionState`). */
  datatype RouteTransitionState =
    | Head | Stacked
    | Pushing | Stacking | Unstacking | Popping | Abandoning | Restoring

  /** True for the six in-motion roles, false for the two idle ones. */
  predicate IsMoving(s: RouteTransitionState) {
    !(s.Head? || s.Stacked?)
  }

  /** A route emitted by the router: its concrete dot-separated name and its
      parameters, which the library only stores and hands on. */
  datatype RouteState = RouteState(name: string, params: map<string, string>)

  /** JavaScript truthiness of a nullable string: null, undefined and "" are falsy. */
  predicate Truthy(s: Option<string>) {
    s.Some? && s.value != ""
  }

  /** `s.startsWith(prefix)` */
  predicate StartsWith(s: string, prefix: string) {
    prefix <= s
  }
}
