/*
 * The `new` command's own logic: the three Handlebars block helpers it
 * registers (`includes`, `includesAny`, `excludes`) and the rule that
 * decides which answers and which destination the generator's actions run
 * with.
 *
 * A helper renders its block (`Some(block)`) or returns undefined (`None`).
 * Template values are a type parameter compared by value; JavaScript's
 * `includes` compares objects and arrays by reference, which is not modelled.
 */
module NewCommand {
  import opened Wrappers

  /** A helper's first argument: an array, or any other value the helper wraps into one. */
  datatype Arg<T> = Array(items: seq<T>) | Scalar(v: T)

  /** `array instanceof Array ? array : [array]` */
  function Coerce<T>(a: Arg<T>): (r: seq<T>)
    ensures a.Array? ==> r == a.items
    ensures a.Scalar? ==> r == [a.v]
  {
    match a
    case Array(items) => items
    case Scalar(v) => [v]
  }

  /** `xs.some(v => values.includes(v))`, walked element by element as `some` does. */
  function SomeIn<T(==)>(xs: seq<T>, values: seq<T>): bool
    decreases |xs|
  {
    if |xs| == 0 then false
    else if xs[0] in values then true
    else SomeIn(xs[1..], values)
  }

  /** `includes`: the block renders exactly when `value` is among the coerced array's elements. */
  function Includes<T(==), B>(arg: Arg<T>, value: T, block: B): Option<B> {
    if value in Coerce(arg) then Some(block) else None
  }

  /**
   * `includesAny`: Handlebars passes the array first, the values next and its
   * options object last; `values` is the arguments strictly between the two.
   */
  function IncludesAny<T(==), B>(arg: Arg<T>, values: seq<T>, block: B): Option<B> {
    if SomeIn(Coerce(arg), values) then Some(block) else None
  }

  /** `excludes`: the block renders exactly when the value is not among the elements. */
  function Excludes<T(==), B>(arg: Arg<T>, value: T, block: B): Option<B> {
    if value !in Coerce(arg) then Some(block) else None
  }

  /** `some` finds an element among the values exactly when one exists. */
  lemma {:induction false} SomeInExists<T>(xs: seq<T>, values: seq<T>)
    ensures SomeIn(xs, values) <==> exists i :: 0 <= i < |xs| && xs[i] in values
    decreases |xs|
  {
    if |xs| > 0 {
      SomeInExists(xs[1..], values);
      if xs[0] !in values {
        forall i | 0 <= i < |xs| && xs[i] in values
          ensures 0 <= i - 1 < |xs[1..]| && xs[1..][i - 1] in values
        {
        }
      } else {
        assert xs[0] in values;
      }
    }
  }

  /** `includes` renders its block, and exactly when the value is an element. */
  lemma IncludesMembership<T, B>(arg: Arg<T>, value: T, block: B)
    ensures Includes(arg, value, block).Some? <==> value in Coerce(arg)
    ensures Includes(arg, value, block).Some? ==> Includes(arg, value, block).value == block
    ensures arg.Scalar? ==> (Includes(arg, value, block).Some? <==> value == arg.v)
  {
  }

  /** `excludes` renders exactly when `includes` would not. */
  lemma ExcludesComplement<T, B>(arg: Arg<T>, value: T, block: B)
    ensures Excludes(arg, value, block).Some? <==> Includes(arg, value, block).None?
    ensures Excludes(arg, value, block).Some? ==> Excludes(arg, value, block).value == block
  {
  }

  /** `includesAny` renders exactly when some element of the coerced array is one of the values. */
  lemma IncludesAnyMembership<T, B>(arg: Arg<T>, values: seq<T>, block: B)
    ensures IncludesAny(arg, values, block).Some?
      <==> exists i :: 0 <= i < |Coerce(arg)| && Coerce(arg)[i] in values
  {
    SomeInExists(Coerce(arg), values);
  }

  /** With a single value `includesAny` agrees with `includes`. */
  lemma IncludesAnySingle<T, B>(arg: Arg<T>, value: T, block: B)
    ensures IncludesAny(arg, [value], block) == Includes(arg, value, block)
  {
    var xs := Coerce(arg);
    SomeInExists(xs, [value]);
    if value in xs {
      var i :| 0 <= i < |xs| && xs[i] == value;
      assert xs[i] in [value];
    }
  }

  /** `includesAny` with several values renders when any one of them would render alone. */
  lemma IncludesAnyUnion<T, B>(arg: Arg<T>, values: seq<T>, more: seq<T>, block: B)
    ensures IncludesAny(arg, values + more, block).Some?
      <==> IncludesAny(arg, values, block).Some? || IncludesAny(arg, more, block).Some?
  {
    var xs := Coerce(arg);
    SomeInExists(xs, values + more);
    SomeInExists(xs, values);
    SomeInExists(xs, more);
  }

  /** With no values `includesAny` never renders. */
  lemma IncludesAnyNone<T, B>(arg: Arg<T>, block: B)
    ensures IncludesAny(arg, [], block) == None
  {
    SomeInExists(Coerce(arg), []);
  }

  // ---------------------------------------------------------------------
  // Answers and destination (lines 60-68)
  // ---------------------------------------------------------------------

  /** Generator answers by name; only text-valued answers are modelled. */
  type Answers = map<string, string>

  /** The argument handed to `runActions`: `{ ...answers, destination }`. */
  datatype RunContext = RunContext(answers: Answers, destination: Option<string>)

  /** What the command does before running the actions: the context, and the directory it ensures, if any. */
  datatype Plan = Plan(context: RunContext, ensured: Option<string>)

  /** The error a missing `name` answer raises inside `paramCase(undefined)`. */
  datatype PlanError = NameMissing

  /** Looking up an answer; a missing one is undefined. */
  function Get(answers: Answers, key: string): Option<string> {
    if key in answers then Some(answers[key]) else None
  }

  /** JavaScript truthiness of an optional string: undefined and "" are falsy. */
  predicate Truthy(s: Option<string>) {
    s.Some? && s.value != ""
  }

  /**
   * The answers and destination the actions run with. `prompted` is what the
   * prompts would return; it is consulted only without an override. `resolve`
   * is `path.resolve` of two segments, `paramCase` the change-case function.
   */
  function PlanRun(override: Option<Answers>, prompted: Answers, cwd: string,
                   resolve: (string, string) -> string, paramCase: string -> string)
    : Result<Plan, PlanError>
  {
    var answers := if override.Some? then override.value else prompted;
    var destination := Get(answers, "destination");
    if override.Some? then
      Ok(Plan(RunContext(answers, destination), None))
    else if Truthy(destination) then
      var d := resolve(cwd, destination.value);
      Ok(Plan(RunContext(answers, Some(d)), Some(d)))
    else if "name" in answers then
      var d := resolve(cwd, resolve("packages", paramCase(answers["name"])));
      Ok(Plan(RunContext(answers, Some(d)), Some(d)))
    else
      Err(NameMissing)
  }

  /** An override replaces prompting entirely: its answers and destination are used as they are and no directory is created. */
  lemma OverrideUsedAsIs(override: Answers, prompted: Answers, cwd: string,
                         resolve: (string, string) -> string, paramCase: string -> string)
    ensures PlanRun(Some(override), prompted, cwd, resolve, paramCase)
      == Ok(Plan(RunContext(override, Get(override, "destination")), None))
  {
  }

  /** Without an override the prompted answers are used, and the directory created is the destination handed to the actions. */
  lemma PromptedDirectoryEnsured(prompted: Answers, cwd: string,
                                 resolve: (string, string) -> string, paramCase: string -> string)
    ensures var r := PlanRun(None, prompted, cwd, resolve, paramCase);
      r.Ok? ==> (r.value.context.answers == prompted
                 && r.value.context.destination.Some?
                 && r.value.ensured == r.value.context.destination)
  {
  }

  /** A given destination is resolved against the working directory; the name is not consulted. */
  lemma GivenDestination(prompted: Answers, cwd: string,
                         resolve: (string, string) -> string, paramCase: string -> string)
    requires Truthy(Get(prompted, "destination"))
    ensures PlanRun(None, prompted, cwd, resolve, paramCase).Ok?
    ensures PlanRun(None, prompted, cwd, resolve, paramCase).value.context.destination
      == Some(resolve(cwd, prompted["destination"]))
  {
  }

  /** A missing or empty destination defaults to `packages/<param-cased name>`, and fails exactly when there is no name. */
  lemma DefaultDestination(prompted: Answers, cwd: string,
                           resolve: (string, string) -> string, paramCase: string -> string)
    requires !Truthy(Get(prompted, "destination"))
    ensures PlanRun(None, prompted, cwd, resolve, paramCase).Err? <==> "name" !in prompted
    ensures "name" in prompted ==>
      PlanRun(None, prompted, cwd, resolve, paramCase).value.context.destination
        == Some(resolve(cwd, resolve("packages", paramCase(prompted["name"]))))
  {
  }

  /** An empty destination answer is treated exactly like a missing one. */
  lemma EmptyDestinationLikeMissing(prompted: Answers, cwd: string,
                                    resolve: (string, string) -> string, paramCase: string -> string)
    requires "destination" !in prompted
    ensures var d := PlanRun(None, prompted["destination" := ""], cwd, resolve, paramCase);
      var m := PlanRun(None, prompted, cwd, resolve, paramCase);
      d.Ok? == m.Ok? && (d.Ok? ==> d.value.context.destination == m.value.context.destination)
  {
  }
}
