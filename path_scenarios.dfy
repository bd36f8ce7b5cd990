/**
 * Paths the repository's test suite expects, built by the model from the
 * same patterns, values, query objects and history roots.
 */
module PathScenarios {
  import opened Wrappers
  import opened Placeholders
  import opened QueryParams
  import opened PathBuilder
  import opened Scenarios

  /**
   * A pattern `a:w1b:w2`, where no token starts in `a`, `b` does not go on
   * with a word character, and the text `a v1 b` in front of the second
   * placeholder is inert too: two values fill the two placeholders in order.
   */
  lemma SubstituteTwo(a: string, w1: string, b: string, w2: string, v1: string, v2: string)
    requires Inert(a) && Word(w1) && Word(w2) && |b| > 0 && !IsWordChar(b[0]) && Inert(a + v1 + b)
    ensures SubstituteAll(a + ([':'] + w1 + (b + ([':'] + w2))), [v1, v2]) == a + v1 + b + v2
  {
    var tail := [':'] + w2;
    var front := a + v1;
    var once := front + (b + tail);
    // Regroup one step at a time, before anything else enters the context.
    assert tail + [] == tail;
    assert front + (b + tail) == (front + b) + tail;
    assert (a + v1 + b) + v2 + [] == a + v1 + b + v2;
    assert (b + tail)[0] == b[0];
    ReplaceBehind(a, w1, b + tail, v1);
    // `ReplaceBehind` takes the text after the placeholder explicitly; here it is empty.
    ReplaceBehind(a + v1 + b, w2, [], v2);
    var vs := [v1, v2];
    assert vs[1..] == [v2] && vs[1..][1..] == [];
    assert SubstituteAll(a + ([':'] + w1 + (b + tail)), vs) == SubstituteAll(once, [v2]);
    assert SubstituteAll(once, [v2]) == ReplaceFirst(once, v2);
  }

  /** `fooPath('hello', 'world')` for the pattern `/foo/:id/bar/:id_2` gives `/foo/hello/bar/world`. */
  lemma FooPath()
    ensures BuildPath("/foo/:id/bar/:id_2", ["hello", "world"], None, None) == "/foo/hello/bar/world"
  {
    assert "/foo/" + "hello" + "/bar/" + "world" == "/foo/hello/bar/world";
    var p := "/foo/:id/bar/:id_2";
    var shaped := "/foo/" + ([':'] + "id" + ("/bar/" + ([':'] + "id_2")));
    assert RootPrefix(None) + Normalize(p) == shaped by {
      assert p == shaped;
    }
    assert Inert("/foo/") && Inert("/foo/" + "hello" + "/bar/") by {
      ColonFreeInert("/foo/");
      ColonFreeInert("/foo/" + "hello" + "/bar/");
    }
    assert Word("id") && Word("id_2") by {
      assert IsWordChar('i') && IsWordChar('d') && IsWordChar('_') && IsWordChar('2');
    }
    SubstituteTwo("/foo/", "id", "/bar/", "id_2", "hello", "world");
  }

  /** `searchPath('kiwis')` for the pattern `search/:query` gives `/search/kiwis`. */
  lemma SearchPath()
    ensures BuildPath("search/:query", ["kiwis"], None, None) == "/search/kiwis"
  {
    assert "/search/" + "kiwis" + [] == "/search/kiwis";
    var p := "search/:query";
    var shaped := "/search/" + ([':'] + "query" + []);
    assert RootPrefix(None) + Normalize(p) == shaped by {
      assert p[0] != '/';
      assert "/" + p == shaped;
    }
    assert Inert("/search/") by {
      ColonFreeInert("/search/");
    }
    assert Word("query") by {
      assert IsWordChar('q') && IsWordChar('u') && IsWordChar('e') && IsWordChar('r') && IsWordChar('y');
    }
    ReplaceBehind("/search/", "query", [], "kiwis");
    assert ["kiwis"][1..] == [];
  }

  /** `searchPath('kiwis', 7)` for the pattern `search/:query/p:page` gives `/search/kiwis/p7`. */
  lemma SearchPagePath()
    ensures BuildPath("search/:query/p:page", ["kiwis", "7"], None, None) == "/search/kiwis/p7"
  {
    assert "/search/" + "kiwis" + "/p" + "7" == "/search/kiwis/p7";
    var p := "search/:query/p:page";
    var shaped := "/search/" + ([':'] + "query" + ("/p" + ([':'] + "page")));
    assert RootPrefix(None) + Normalize(p) == shaped by {
      assert p[0] != '/';
      assert "/" + p == shaped;
    }
    assert Inert("/search/") && Inert("/search/" + "kiwis" + "/p") by {
      ColonFreeInert("/search/");
      ColonFreeInert("/search/" + "kiwis" + "/p");
    }
    assert Word("query") && Word("page") by {
      assert IsWordChar('q') && IsWordChar('u') && IsWordChar('e') && IsWordChar('r') && IsWordChar('y');
      assert IsWordChar('p') && IsWordChar('a') && IsWordChar('g');
    }
    SubstituteTwo("/search/", "query", "/p", "page", "kiwis", "7");
  }

  /** The query object `{ foo: "bar", baz: "boo" }` of the test suite. */
  function FooBarBazBoo(): QueryObject {
    [Property("foo", Text("bar"), true), Property("baz", Text("boo"), true)]
  }

  /** `{ foo: "bar", baz: "boo" }` is appended as `?foo=bar&baz=boo`. */
  lemma FooBarBazBooSuffix()
    ensures QuerySuffix(Filter(Some(FooBarBazBoo()))) == "?foo=bar&baz=boo"
  {
    assert "?foo=bar&baz=boo" == "?" + (("foo" + "=" + "bar") + "&" + ("baz" + "=" + "boo"));
    var q := FooBarBazBoo();
    AllDefinedKept(q);
    assert Pair(q[0]) == "foo" + "=" + "bar" && Pair(q[1]) == "baz" + "=" + "boo";
  }

  /**
   * With history started at root `/articles`, `helpPath({ foo: "bar", baz: "boo" })`
   * for the pattern `help` gives `/articles/help?foo=bar&baz=boo`.
   */
  lemma ArticlesHelpPath()
    ensures BuildPath("help", [], Some(FooBarBazBoo()), Some(HistoryOptions(Some("/articles"))))
      == "/articles/help?foo=bar&baz=boo"
  {
    assert "/articles/help?foo=bar&baz=boo" == "/articles" + ("/" + "help") + "?foo=bar&baz=boo";
    var h := Some(HistoryOptions(Some("/articles")));
    assert "help"[0] != '/';
    assert RootPrefix(h) + Normalize("help") == "/articles" + ("/" + "help");
    FooBarBazBooSuffix();
  }
}
