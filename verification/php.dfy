/** The few PHP and Laravel primitives the route pipeline relies on. */
module PhpSupport {

  datatype Option<+T> = None | Some(value: T) {
    /** The `??` operator: the value, or `default` when absent (null). */
    function GetOr(default: T): T {
      match this
      case Some(v) => v
      case None => default
    }
  }

  /** PHP's truthiness of a string: only "" and "0" are falsy. */
  predicate Truthy(s: string) {
    s != "" && s != "0"
  }

  /** `Str::startsWith` for a non-empty needle. */
  predicate StartsWith(s: string, prefix: string) {
    prefix <= s
  }

  /** `rtrim($s, '/')`: drops every trailing slash and nothing else. */
  function TrimTrailingSlashes(s: string): (r: string)
    ensures r <= s
    ensures r == [] || r[|r| - 1] != '/'
    ensures forall k :: |r| <= k < |s| ==> s[k] == '/'
  {
    if s != [] && s[|s| - 1] == '/' then TrimTrailingSlashes(s[..|s| - 1]) else s
  }
}
