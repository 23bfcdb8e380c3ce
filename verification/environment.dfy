/** The process environment as a finite map from variable names to values,
    with JavaScript's truthiness: a variable that is unset and one set to
    the empty string are both falsy. */
module Environment {
  import opened Wrappers

  type Env = map<string, string>

  /** `process.env[name]`: the value, or `undefined`. */
  function Lookup(env: Env, name: string): Option<string> {
    if name in env then Some(env[name]) else None
  }

  /** `!!process.env[name]`. */
  predicate IsSet(env: Env, name: string) {
    name in env && env[name] != ""
  }

  /** `process.env[name] || fallback`. */
  function OrElse(env: Env, name: string, fallback: string): (v: string)
    ensures IsSet(env, name) ==> v == env[name]
    ensures !IsSet(env, name) ==> v == fallback
  {
    if IsSet(env, name) then env[name] else fallback
  }
}
