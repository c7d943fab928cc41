/** The pieces of JavaScript semantics that the handlers in app.js rely on. */
module Js {
  import opened Wrappers

  /** Truthiness of a string-or-undefined: only `undefined` and "" are falsy. */
  predicate Truthy(v: Option<string>) {
    v.Some? && v.value != ""
  }

  /**
   * The expression `v || fallback` on a string-or-undefined: a truthy `v` wins,
   * anything else gives the fallback, so the result is "" only when the fallback is.
   */
  function Or(v: Option<string>, fallback: string): (r: string)
    ensures Truthy(v) ==> r == v.value
    ensures !Truthy(v) ==> r == fallback
    ensures r == "" ==> fallback == ""
  {
    if Truthy(v) then v.value else fallback
  }

  /** `${v}` inside a template literal: `undefined` is printed as the word "undefined". */
  function Interpolate(v: Option<string>): string {
    match v
    case Some(s) => s
    case None => "undefined"
  }

  /** The characters a regular expression `.` refuses to match (ECMA-262 LineTerminator). */
  predicate IsLineTerminator(c: char) {
    c == '\n' || c == '\r' || c == '\U{2028}' || c == '\U{2029}'
  }

  /**
   * The characters the regular-expression class `\s` matches: ECMA-262 WhiteSpace
   * (tab, vertical tab, form feed, space, no-break space, the byte-order mark and the
   * space separators of Unicode category Zs) and LineTerminator.
   */
  predicate IsWhiteSpace(c: char) {
    || c == '\t' || c == '\U{000B}' || c == '\U{000C}' || c == ' '
    || c == '\U{00A0}' || c == '\U{FEFF}' || c == '\U{1680}'
    || ('\U{2000}' <= c <= '\U{200A}')
    || c == '\U{202F}' || c == '\U{205F}' || c == '\U{3000}'
    || IsLineTerminator(c)
  }
}
