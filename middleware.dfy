/** `catchSpecialCharacters`: the router-level filter that refuses any
    request whose URL, after its first character, holds a special character. */
module Middleware {
  import TaskModel

  /** The thirty characters of the filter's character class. */
  const SpecialCharacters: set<char> := {
    '!', '@', '#', '$', '%', '^', '&', '*', '(', ')', '_', '+', '-', '=', '[', ']',
    '{', '}', ';', '\'', ':', '"', '\\', '|', ',', '.', '<', '>', '/', '?'}

  /** The set holds exactly the characters of the string below: the
      filter's character class with its escapes removed. */
  lemma SpecialCharactersOfTheClass(c: char)
    ensures c in SpecialCharacters <==> c in "!@#$%^&*()_+-=[]{};':\"\\|,.<>/?"
  {
  }

  /** What the filter does with a request: answer it with a code, or pass
      it on with `next()`. */
  datatype FilterOutcome = Respond(code: TaskModel.Code) | Next

  /** The regular-expression test: some character of `s` is special. */
  function ContainsSpecial(s: string): (b: bool)
    ensures b <==> exists i :: 0 <= i < |s| && s[i] in SpecialCharacters
  {
    if |s| == 0 then false
    else if s[0] in SpecialCharacters then true
    else
      assert forall i :: 1 <= i < |s| ==> s[i] == s[1..][i - 1];
      ContainsSpecial(s[1..])
  }

  /** `url.slice(1)`: everything after the first character ("" for ""). */
  function DropFirst(url: string): (r: string)
    ensures |r| == if |url| == 0 then 0 else |url| - 1
    ensures forall i :: 0 <= i < |r| ==> r[i] == url[i + 1]
  {
    if |url| == 0 then "" else url[1..]
  }

  /** The filter: AS002 exactly when a character after the first is special,
      and otherwise `next()` with no response. */
  function CatchSpecialCharacters(url: string): (r: FilterOutcome)
    ensures r == Respond(TaskModel.AS002) <==> exists i :: 1 <= i < |url| && url[i] in SpecialCharacters
    ensures r != Respond(TaskModel.AS002) ==> r == Next
  {
    var tail := DropFirst(url);
    assert forall i :: 1 <= i < |url| ==> url[i] == tail[i - 1];
    if ContainsSpecial(tail) then Respond(TaskModel.AS002) else Next
  }

  /** The first character is never inspected: the leading "/" of every
      route, or any other character, makes no difference. */
  lemma FirstCharacterIgnored(c: char, d: char, rest: string)
    ensures CatchSpecialCharacters([c] + rest) == CatchSpecialCharacters([d] + rest)
  {
    assert ([c] + rest)[1..] == rest;
    assert ([d] + rest)[1..] == rest;
  }

  /** A bare "/" and the empty URL pass the filter. */
  lemma EmptyTailPasses()
    ensures CatchSpecialCharacters("/") == Next
    ensures CatchSpecialCharacters("") == Next
  {
  }

  /** Every character of the class is refused anywhere after the first
      position; in particular a query string ("?") or a percent-encoded
      character ("%") is refused. */
  lemma SpecialCharacterRefused(prefix: string, c: char, suffix: string)
    requires |prefix| >= 1 && c in SpecialCharacters
    ensures CatchSpecialCharacters(prefix + [c] + suffix) == Respond(TaskModel.AS002)
  {
    assert (prefix + [c] + suffix)[|prefix|] == c;
  }

  predicate IsAlphanumeric(c: char)
  {
    'a' <= c <= 'z' || 'A' <= c <= 'Z' || '0' <= c <= '9'
  }

  /** A URL whose tail is only letters and digits passes. */
  lemma AlphanumericTailPasses(url: string)
    requires forall i :: 1 <= i < |url| ==> IsAlphanumeric(url[i])
    ensures CatchSpecialCharacters(url) == Next
  {
    assert forall c :: IsAlphanumeric(c) ==> c !in SpecialCharacters;
  }

  /** The route names pass the filter. */
  lemma CreateTaskRoutePasses()
    ensures CatchSpecialCharacters("/CreateTask") == Next
  {
    var url := "/CreateTask";
    assert forall i :: 1 <= i < |url| ==> IsAlphanumeric(url[i]);
    AlphanumericTailPasses(url);
  }
}
