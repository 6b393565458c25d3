/**
 * compareWithOperator of conditinal-fields.js, over string operands.
 *
 * Input values and condition literals are both strings, so the relational
 * operators follow the string case of the ECMAScript Abstract Relational
 * Comparison (IsLessThan): the shorter string is less when it is a proper
 * prefix of the other, otherwise the first differing character decides.
 */
module JsCompare {
  import opened Wrappers

  /** IsLessThan(a, b) for two strings: lexicographic order, a prefix before its extensions. */
  function Less(a: string, b: string): (r: bool)
    ensures r ==> a != b
    ensures |a| == 0 ==> (r <==> |b| > 0)
    decreases |a|
  {
    if |a| == 0 then |b| > 0
    else if |b| == 0 then false
    else if a[0] == b[0] then Less(a[1..], b[1..])
    else a[0] < b[0]
  }

  lemma {:induction false} LessIrreflexive(a: string)
    ensures !Less(a, a)
    decreases |a|
  {
    if |a| > 0 { LessIrreflexive(a[1..]); }
  }

  lemma {:induction false} LessTransitive(a: string, b: string, c: string)
    requires Less(a, b) && Less(b, c)
    ensures Less(a, c)
    decreases |a|
  {
    if |a| > 0 && |b| > 0 && |c| > 0 && a[0] == b[0] && b[0] == c[0] {
      LessTransitive(a[1..], b[1..], c[1..]);
    }
  }

  /** Exactly one of a < b, a == b, b < a holds: two strings are always comparable. */
  lemma {:induction false} LessTrichotomy(a: string, b: string)
    ensures Less(a, b) || a == b || Less(b, a)
    ensures !(Less(a, b) && Less(b, a))
    ensures a == b ==> !Less(a, b)
    decreases |a|
  {
    if |a| > 0 && |b| > 0 && a[0] == b[0] {
      LessTrichotomy(a[1..], b[1..]);
      if a[1..] == b[1..] {
        assert a == [a[0]] + a[1..] && b == [b[0]] + b[1..];
      }
    }
    if a == b { LessIrreflexive(a); }
  }

  /** The six operators the engine recognises. */
  predicate IsOperator(op: string)
  {
    op == "=" || op == "!=" || op == ">" || op == ">=" || op == "<" || op == "<="
  }

  /**
   * The names an object literal inherits from Object.prototype (with the
   * legacy accessors and `__proto__`); looking one up yields a function or
   * an object rather than undefined.
   */
  predicate IsObjectPrototypeMember(op: string)
  {
    op in {"constructor", "hasOwnProperty", "isPrototypeOf", "propertyIsEnumerable",
           "toLocaleString", "toString", "valueOf", "__proto__",
           "__defineGetter__", "__defineSetter__", "__lookupGetter__", "__lookupSetter__"}
  }

  /** The value found by looking the operator up in the literal. */
  datatype LookupValue =
    | Undefined
    | Bool(b: bool)
      /** An inherited method or Object.prototype itself: always truthy. */
    | InheritedMember

  /** The object literal indexed by the operator. */
  function CompareWithOperator(op: string, firstData: string, secondData: string): (r: LookupValue)
    ensures r.Bool? <==> IsOperator(op)
    ensures r.InheritedMember? <==> IsObjectPrototypeMember(op)
    ensures op == "=" ==> r == Bool(firstData == secondData)
    ensures op == "<" ==> r == Bool(Less(firstData, secondData))
    ensures op == ">" ==> r == Bool(Less(secondData, firstData))
  {
    if op == "=" then Bool(firstData == secondData)
    else if op == "!=" then Bool(firstData != secondData)
    else if op == ">" then Bool(Less(secondData, firstData))
    else if op == ">=" then Bool(!Less(firstData, secondData))
    else if op == "<" then Bool(Less(firstData, secondData))
    else if op == "<=" then Bool(!Less(secondData, firstData))
    else if IsObjectPrototypeMember(op) then InheritedMember
    else Undefined
  }

  /** JavaScript truthiness of the looked-up value: undefined and false are falsy, functions and objects truthy. */
  predicate Truthy(r: LookupValue)
  {
    r == Bool(true) || r.InheritedMember?
  }

  /** "!=" is the negation of "=" on strings. */
  lemma NotEqualIsNegation(a: string, b: string)
    ensures Truthy(CompareWithOperator("!=", a, b)) <==> !Truthy(CompareWithOperator("=", a, b))
  {
  }

  /** ">=" holds exactly when ">" or "=" holds, and "<=" exactly when "<" or "=" holds. */
  lemma OrEqualOperators(a: string, b: string)
    ensures Truthy(CompareWithOperator(">=", a, b))
        <==> Truthy(CompareWithOperator(">", a, b)) || Truthy(CompareWithOperator("=", a, b))
    ensures Truthy(CompareWithOperator("<=", a, b))
        <==> Truthy(CompareWithOperator("<", a, b)) || Truthy(CompareWithOperator("=", a, b))
  {
    LessTrichotomy(a, b);
  }

  /** An operator that is neither one of the six nor an inherited name yields undefined, which is never truthy. */
  lemma UnknownOperatorIsFalsy(op: string, a: string, b: string)
    requires !IsOperator(op) && !IsObjectPrototypeMember(op)
    ensures !Truthy(CompareWithOperator(op, a, b))
  {
  }

  /** An inherited name such as "constructor" is truthy whatever the two values are. */
  lemma InheritedOperatorIsTruthy(op: string, a: string, b: string)
    requires IsObjectPrototypeMember(op)
    ensures Truthy(CompareWithOperator(op, a, b))
  {
  }
}
