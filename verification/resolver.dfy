/**
  The value resolver (main.go, `resolveEnv`).

  A configuration string of the form `env://NAME` stands for the value of the
  environment variable NAME; any other string is a literal. The process
  environment is passed in as a map of its entries, read like `os.Getenv`:
  an unset variable reads as "", and so does a name that no entry can carry
  (the empty name, or one containing '=').
*/
module Resolver {
  import opened Steps

  /** The literal indirection prefix. */
  const EnvPrefix: string := "env://"

  /** Go's `strings.HasPrefix`. */
  predicate HasPrefix(s: string, prefix: string): (b: bool)
    ensures b <==> prefix <= s
  {
    |prefix| <= |s| && s[..|prefix|] == prefix
  }

  /** Go's `strings.TrimPrefix`: drops `prefix` when `s` starts with it, else keeps `s`. */
  function TrimPrefix(s: string, prefix: string): (r: string)
    ensures HasPrefix(s, prefix) ==> prefix + r == s
    ensures !HasPrefix(s, prefix) ==> r == s
  {
    if HasPrefix(s, prefix) then s[|prefix|..] else s
  }

  /** A name `os.Getenv` can find: an entry's name is non-empty and ends at its first '='. */
  predicate IsEnvName(name: string) {
    name != "" && '=' !in name
  }

  /**
    `os.Getenv`: the empty name reads as "" before any lookup, and a name
    containing '=' never matches an entry; otherwise an unset variable reads as "".
  */
  function Getenv(env: map<string, string>, name: string): (v: string)
    ensures v != "" ==> IsEnvName(name) && name in env && v == env[name]
    ensures IsEnvName(name) && name in env ==> v == env[name]
  {
    if IsEnvName(name) then Lookup(env, name) else ""
  }

  /**
    `resolveEnv`: an `env://` reference is replaced by the variable's value;
    anything else is returned as it is. Whatever comes back is the input
    itself, an environment value, or "" (never an error).
  */
  function ResolveEnv(env: map<string, string>, value: string): (r: string)
    ensures r == value || r == "" || r in env.Values
  {
    if HasPrefix(value, EnvPrefix) then Getenv(env, TrimPrefix(value, EnvPrefix)) else value
  }

  /** A string without the prefix is a literal: it comes back unchanged, whatever the environment. */
  lemma ResolveLiteral(env: map<string, string>, value: string)
    requires !HasPrefix(value, EnvPrefix)
    ensures ResolveEnv(env, value) == value
  {
  }

  /**
    `env://NAME` resolves to NAME's value, and to "" when NAME is unset or is
    not a name an entry can carry (so `env://` alone resolves to "").
  */
  lemma ResolveReference(env: map<string, string>, name: string)
    ensures IsEnvName(name) && name in env ==> ResolveEnv(env, EnvPrefix + name) == env[name]
    ensures !(IsEnvName(name) && name in env) ==> ResolveEnv(env, EnvPrefix + name) == ""
  {
  }

  /**
    Every string is either a literal or a reference `env://NAME` for exactly
    one NAME, so the two lemmas above cover all inputs.
  */
  lemma ReferenceNameIsUnique(value: string)
    requires HasPrefix(value, EnvPrefix)
    ensures value == EnvPrefix + TrimPrefix(value, EnvPrefix)
    ensures forall name :: value == EnvPrefix + name ==> name == TrimPrefix(value, EnvPrefix)
  {
  }
}
