/**
 * `convert_path_variables`: the substitution of `:([a-zA-Z0-9_-]+)` by
 * `{\1}`, written as the left-to-right scan the regular-expression engine
 * performs: at each position either a `:` followed by the longest run of
 * name characters is replaced, or one character is copied.
 */
module PathVariables {

  /** The character class `[a-zA-Z0-9_-]`. */
  predicate IsNameChar(c: char)
  {
    ('a' <= c <= 'z') || ('A' <= c <= 'Z') || ('0' <= c <= '9') || c == '_' || c == '-'
  }

  /** The length of the longest prefix of `s` made of name characters. */
  function NameRun(s: string): (n: nat)
    ensures n <= |s|
  {
    if s != [] && IsNameChar(s[0]) then 1 + NameRun(s[1..]) else 0
  }

  /** The run is maximal: all of it is name characters, and the character after it is not one. */
  lemma {:induction false} NameRunSpec(s: string)
    ensures var n := NameRun(s);
      && (forall i :: 0 <= i < n ==> IsNameChar(s[i]))
      && (n < |s| ==> !IsNameChar(s[n]))
  {
    if s != [] && IsNameChar(s[0]) {
      NameRunSpec(s[1..]);
    }
  }

  /** A string made only of name characters is one run. */
  lemma {:induction false} NameRunAll(s: string)
    requires forall i :: 0 <= i < |s| ==> IsNameChar(s[i])
    ensures NameRun(s) == |s|
  {
    if s != [] {
      NameRunAll(s[1..]);
    }
  }

  /** A `:` that starts a path variable sits at position `i`. */
  predicate VariableAt(s: string, i: int)
  {
    0 <= i < |s| - 1 && s[i] == ':' && IsNameChar(s[i + 1])
  }

  predicate NoVariable(s: string)
  {
    forall i :: 0 <= i < |s| ==> !VariableAt(s, i)
  }

  /** `re.sub(r':([a-zA-Z0-9_-]+)', r'{\1}', path)`. */
  function ConvertPathVariables(path: string): string
    decreases |path|
  {
    if path == [] then []
    else if path[0] == ':' && NameRun(path[1..]) > 0 then
      var n := NameRun(path[1..]);
      "{" + path[1..1 + n] + "}" + ConvertPathVariables(path[1 + n..])
    else
      [path[0]] + ConvertPathVariables(path[1..])
  }

  /** What the conversion starts with: `{` where a variable starts, else the first character. */
  lemma ConvertHead(s: string)
    requires s != []
    ensures var r := ConvertPathVariables(s);
      r != [] && r[0] == (if s[0] == ':' && NameRun(s[1..]) > 0 then '{' else s[0])
  {
  }

  /** After the conversion no `:` is followed by a name character. */
  lemma {:induction false} ConvertLeavesNoVariable(s: string)
    ensures NoVariable(ConvertPathVariables(s))
    decreases |s|
  {
    if s != [] {
      var n := NameRun(s[1..]);
      if s[0] == ':' && n > 0 {
        ConvertLeavesNoVariable(s[1 + n..]);
        NoVariableAfterVariable(s);
      } else {
        ConvertLeavesNoVariable(s[1..]);
        NoVariableAfterCopy(s);
      }
    }
  }

  /** A replaced variable `{name}` in front of converted text introduces no variable. */
  lemma {:induction false} NoVariableAfterVariable(s: string)
    requires s != [] && s[0] == ':' && NameRun(s[1..]) > 0
    requires NoVariable(ConvertPathVariables(s[1 + NameRun(s[1..])..]))
    ensures NoVariable(ConvertPathVariables(s))
  {
    var n := NameRun(s[1..]);
    var rest := ConvertPathVariables(s[1 + n..]);
    var head := "{" + s[1..1 + n] + "}";
    var r := head + rest;
    assert ConvertPathVariables(s) == r;
    NameRunSpec(s[1..]);
    forall i | 0 <= i < |r| ensures !VariableAt(r, i) {
      if i >= |head| {
        assert r[i..] == rest[i - |head|..];
        assert !VariableAt(rest, i - |head|);
      } else if i == 0 {
        assert r[0] == '{';
      } else if i <= n {
        assert r[i] == s[i] && IsNameChar(s[1..][i - 1]);
      } else {
        assert r[i] == '}';
      }
    }
  }

  /**
   * A copied character in front of converted text introduces no variable:
   * either it is not `:`, or what follows it does not start with a name
   * character (the conversion of a name character is that character).
   */
  lemma {:induction false} NoVariableAfterCopy(s: string)
    requires s != [] && !(s[0] == ':' && NameRun(s[1..]) > 0)
    requires NoVariable(ConvertPathVariables(s[1..]))
    ensures NoVariable(ConvertPathVariables(s))
  {
    var rest := ConvertPathVariables(s[1..]);
    var r := [s[0]] + rest;
    assert ConvertPathVariables(s) == r;
    if rest != [] {
      ConvertHead(s[1..]);
    }
    forall i ensures !VariableAt(r, i) {
      if i >= 1 {
        assert !VariableAt(rest, i - 1);
      }
    }
  }

  /** A path without variables is left exactly as it is. */
  lemma {:induction false} ConvertFixpoint(s: string)
    requires NoVariable(s)
    ensures ConvertPathVariables(s) == s
    decreases |s|
  {
    if s != [] {
      assert !VariableAt(s, 0);
      assert NoVariable(s[1..]) by {
        forall i ensures !VariableAt(s[1..], i) {
          assert !VariableAt(s, i + 1);
        }
      }
      ConvertFixpoint(s[1..]);
      assert [s[0]] + s[1..] == s;
    }
  }

  /** Converting twice is converting once. */
  lemma ConvertIdempotent(s: string)
    ensures ConvertPathVariables(ConvertPathVariables(s)) == ConvertPathVariables(s)
  {
    ConvertLeavesNoVariable(s);
    ConvertFixpoint(ConvertPathVariables(s));
  }

  /** A run of name characters is not lengthened by what follows it unless that is a name character. */
  lemma {:induction false} NameRunAppend(a: string, b: string)
    requires b == [] || !IsNameChar(b[0])
    ensures NameRun(a + b) == NameRun(a)
  {
    if a != [] {
      assert (a + b)[0] == a[0] && (a + b)[1..] == a[1..] + b;
      NameRunAppend(a[1..], b);
    } else {
      assert a + b == b;
    }
  }

  /** Text without `:` in front of a path is copied, and the rest is converted on its own. */
  lemma {:induction false} ConvertLiteralPrefix(a: string, b: string)
    requires ':' !in a
    ensures ConvertPathVariables(a + b) == a + ConvertPathVariables(b)
  {
    if a == [] {
      assert a + b == b;
    } else {
      var s := a + b;
      assert s[0] == a[0] && s[1..] == a[1..] + b;
      ConvertLiteralPrefix(a[1..], b);
      assert a == [a[0]] + a[1..];
    }
  }

  /** A `:` that no name character follows is copied, and the rest is converted on its own. */
  lemma {:induction false} ConvertColonPrefix(b: string)
    requires b == [] || !IsNameChar(b[0])
    ensures ConvertPathVariables(":" + b) == ":" + ConvertPathVariables(b)
  {
    assert (":" + b)[1..] == b;
  }

  /**
   * `:name` in front of a path becomes `{name}`, and the rest is converted
   * on its own, when the rest does not continue the name.
   */
  lemma ConvertVariablePrefix(name: string, b: string)
    requires name != [] && forall i :: 0 <= i < |name| ==> IsNameChar(name[i])
    requires b == [] || !IsNameChar(b[0])
    ensures ConvertPathVariables(":" + name + b) == "{" + name + "}" + ConvertPathVariables(b)
  {
    var s := ":" + name + b;
    assert s[1..] == name + b;
    NameRunAll(name);
    NameRunAppend(name, b);
    assert s[1..1 + |name|] == name && s[1 + |name|..] == b;
  }

  /** A piece without `:` is copied. */
  lemma ConvertLiteral(s: string)
    requires ':' !in s
    ensures ConvertPathVariables(s) == s
  {
    assert NoVariable(s);
    ConvertFixpoint(s);
  }

  /**
   * A worked example: `/users/:id/orders/:orderId` becomes
   * `/users/{id}/orders/{orderId}`, for any two variable names.
   */
  lemma ConvertExample(id: string, orderId: string)
    requires id != [] && forall i :: 0 <= i < |id| ==> IsNameChar(id[i])
    requires orderId != [] && forall i :: 0 <= i < |orderId| ==> IsNameChar(orderId[i])
    ensures ConvertPathVariables("/users/" + (":" + id + ("/orders/" + (":" + orderId))))
         == "/users/" + ("{" + id + "}" + ("/orders/" + ("{" + orderId + "}")))
  {
    var tail := ":" + orderId;
    assert tail + [] == tail;
    ConvertVariablePrefix(orderId, []);
    assert "{" + orderId + "}" + [] == "{" + orderId + "}";
    ConvertLiteralPrefix("/orders/", tail);
    ConvertVariablePrefix(id, "/orders/" + tail);
    ConvertLiteralPrefix("/users/", ":" + id + ("/orders/" + tail));
  }
}
