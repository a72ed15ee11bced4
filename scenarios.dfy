/**
  Concrete cases: two of the resource types whose generated list functions
  ship with the repository, `aws_lambda_function` and `aws_devicefarm_project`,
  run through the stages on small metadata that holds the operations those
  functions call.
 */
module Scenarios {
  import opened Wrappers
  import opened Text
  import opened Metadata
  import opened Naming

  /** `lambda_function` splits into its two tokens. */
  lemma LambdaFunctionTokens()
    ensures Tokens("aws_lambda_function") == ["lambda", "function"]
  {
    assert TrimPrefix("aws_lambda_function", ResourcePrefix) == "lambda_function";
    assert Join(["lambda", "function"], "_") == "lambda_function";
    SplitOfJoin(["lambda", "function"], '_');
  }

  /** The guesses for `aws_lambda_function`, longest word first. */
  lemma LambdaFunctionPlurals()
    ensures PluralCandidates("aws_lambda_function") == ["lambdafunctions", "lambdafunctiones", "functions", "functiones"]
  {
    LambdaFunctionTokens();
    LambdaFunctionWords();
    NotEndingInY("lambdafunction");
    NotEndingInY("function");
    PluralsOfTwoTokens("aws_lambda_function", "lambda", "function");
  }

  /** The guesses for a type with two tokens, neither of whose suffix words ends in `y`. */
  lemma PluralsOfTwoTokens(rType: string, a: string, b: string)
    requires Tokens(rType) == [a, b]
    requires PluralsOfWord(a + b) == [a + b + "s", a + b + "es"]
    requires PluralsOfWord(b) == [b + "s", b + "es"]
    ensures PluralCandidates(rType) == [a + b + "s", a + b + "es", b + "s", b + "es"]
  {
    ConcatTwo(a, b);
    assert Concat([a, b][1..]) == b by {
      assert [a, b][1..] == [b];
    }
    var ws := SuffixWords([a, b]);
    assert ws == [a + b, b];
    assert PluralsOfWords(ws[1..]) == PluralsOfWord(b) + PluralsOfWords([]);
    assert PluralsOfWords(ws) == PluralsOfWord(a + b) + PluralsOfWords(ws[1..]);
  }

  /** The guesses for a word that does not end in `y`. */
  lemma NotEndingInY(w: string)
    requires |w| > 0 && w[|w| - 1] != 'y'
    ensures PluralsOfWord(w) == [w + "s", w + "es"]
  {
    assert w[|w| - 1..] != "y";
  }

  /** `devicefarm_project` splits into its two tokens. */
  lemma DevicefarmProjectTokens()
    ensures Tokens("aws_devicefarm_project") == ["devicefarm", "project"]
  {
    assert TrimPrefix("aws_devicefarm_project", ResourcePrefix) == "devicefarm_project";
    assert Join(["devicefarm", "project"], "_") == "devicefarm_project";
    SplitOfJoin(["devicefarm", "project"], '_');
  }

  /** The list-function name of `aws_devicefarm_project`, as in `ListDevicefarmProject`. */
  lemma DevicefarmProjectOpName()
    ensures TypeToOpName("aws_devicefarm_project") == "DevicefarmProject"
  {
    DevicefarmProjectTokens();
    DevicefarmProjectAlnum();
    OpNameOfTwoTokens("aws_devicefarm_project", "devicefarm", "project");
    DevicefarmProjectCapitalized();
    DevicefarmProjectJoined();
  }

  /** The function name of a type with two alphanumeric tokens. */
  lemma OpNameOfTwoTokens(rType: string, a: string, b: string)
    requires Tokens(rType) == [a, b]
    requires |a| > 0 && |b| > 0
    requires (forall c :: c in a ==> IsAsciiAlnum(c)) && (forall c :: c in b ==> IsAsciiAlnum(c))
    ensures TypeToOpName(rType) == Capitalize(a) + Capitalize(b)
  {
    TypeToOpNameCapitalizesTokens(rType);
    assert CapitalizeAll([a, b]) == [Capitalize(a), Capitalize(b)];
    ConcatTwo(Capitalize(a), Capitalize(b));
  }

  lemma DevicefarmProjectCapitalized()
    ensures Capitalize("devicefarm") == "Devicefarm" && Capitalize("project") == "Project"
  {
    CapitalizeWord("devicefarm", 'D');
    CapitalizeWord("project", 'P');
  }

  lemma ConcatTwo(a: string, b: string)
    ensures Concat([a, b]) == a + b
  {
    assert [a, b][1..] == [b];
    assert Join([a, b][1..], "") == b;
    assert a + "" + b == a + b;
  }

  lemma CapitalizeWord(w: string, upper: char)
    requires |w| > 0 && IsAsciiLower(w[0]) && upper as int == w[0] as int - 32
    ensures Capitalize(w) == [upper] + w[1..]
  {
  }

  /** The guesses for `aws_devicefarm_project`. */
  lemma DevicefarmProjectPlurals()
    ensures PluralCandidates("aws_devicefarm_project")
         == ["devicefarmprojects", "devicefarmprojectes", "projects", "projectes"]
  {
    DevicefarmProjectTokens();
    DevicefarmProjectWords();
    NotEndingInY("devicefarmproject");
    NotEndingInY("project");
    PluralsOfTwoTokens("aws_devicefarm_project", "devicefarm", "project");
  }

  /** The list-function name of `aws_lambda_function`, as in `ListLambdaFunction`. */
  lemma LambdaFunctionOpName()
    ensures TypeToOpName("aws_lambda_function") == "LambdaFunction"
  {
    LambdaFunctionTokens();
    LambdaFunctionAlnum();
    OpNameOfTwoTokens("aws_lambda_function", "lambda", "function");
    LambdaFunctionCapitalized();
    LambdaFunctionJoined();
  }

  lemma LambdaFunctionCapitalized()
    ensures Capitalize("lambda") == "Lambda" && Capitalize("function") == "Function"
  {
    CapitalizeWord("lambda", 'L');
    CapitalizeWord("function", 'F');
  }


  // String facts the solver cannot afford inside the lemmas above.

  lemma LambdaFunctionWords()
    ensures "lambda" + "function" + "s" == "lambdafunctions" && "lambda" + "function" + "es" == "lambdafunctiones"
    ensures "function" + "s" == "functions" && "function" + "es" == "functiones"
    ensures "lambda" + "function" == "lambdafunction"
  {
  }

  lemma LambdaFunctionAlnum()
    ensures forall c :: c in "lambda" ==> IsAsciiAlnum(c)
    ensures forall c :: c in "function" ==> IsAsciiAlnum(c)
  {
  }

  lemma LambdaFunctionJoined()
    ensures "Lambda" + "Function" == "LambdaFunction"
  {
  }

  lemma DevicefarmProjectWords()
    ensures "devicefarm" + "project" + "s" == "devicefarmprojects"
    ensures "devicefarm" + "project" + "es" == "devicefarmprojectes"
    ensures "project" + "s" == "projects" && "project" + "es" == "projectes"
    ensures "devicefarm" + "project" == "devicefarmproject"
  {
  }

  lemma DevicefarmProjectAlnum()
    ensures forall c :: c in "devicefarm" ==> IsAsciiAlnum(c)
    ensures forall c :: c in "project" ==> IsAsciiAlnum(c)
  {
  }

  lemma DevicefarmProjectJoined()
    ensures "Devicefarm" + "Project" == "DevicefarmProject"
  {
  }
}
