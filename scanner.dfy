/** The declaration scanner of `Autoloader::getClassesFromFile`: a walk over the PHP
    token array that tracks the current namespace and collects the lower-cased,
    namespace-qualified names of the classes, interfaces and traits declared. */
module Scanner {
  import opened Php

  /** The token kinds the scanner looks at; every other kind is `Other(id)`. */
  datatype Kind =
    | Namespace      // T_NAMESPACE
    | NsSeparator    // T_NS_SEPARATOR
    | Name           // T_STRING
    | Class          // T_CLASS
    | Interface      // T_INTERFACE
    | Trait          // T_TRAIT
    | DoubleColon    // T_DOUBLE_COLON
    | Other(id: int)

  /** An element of `token_get_all`'s result: a (kind, text) lexeme, or a bare
      one-character string such as `;` or `{`. */
  datatype Token = Lexeme(kind: Kind, text: string) | Char(c: char)

  /** `$tokens[$i][0]` compared against a kind constant: a character token never
      equals one, and an index outside the array (`-1`, or past the end after a
      jump) reads as no token at all. */
  function KindAt(tokens: seq<Token>, i: int): (k: Option<Kind>)
    ensures k.Some? <==> 0 <= i < |tokens| && tokens[i].Lexeme?
  {
    if 0 <= i < |tokens| && tokens[i].Lexeme? then Some(tokens[i].kind) else None
  }

  /** `$tokens[$i][1]`: the lexeme's text, and `""` for a character token or an
      index outside the array. */
  function TextAt(tokens: seq<Token>, i: int): (s: string)
    ensures s != [] ==> 0 <= i < |tokens| && tokens[i].Lexeme? && s == tokens[i].text
  {
    if 0 <= i < |tokens| && tokens[i].Lexeme? then tokens[i].text else ""
  }

  predicate IsNamePart(k: Option<Kind>) {
    k == Some(Name) || k == Some(NsSeparator)
  }

  predicate IsDeclKeyword(k: Option<Kind>) {
    k == Some(Class) || k == Some(Interface) || k == Some(Trait)
  }

  /** `Foo::class`: a `class` keyword right after `::` is a constant reference. */
  predicate IsClassConstant(tokens: seq<Token>, i: int) {
    KindAt(tokens, i) == Some(Class) && KindAt(tokens, i - 1) == Some(DoubleColon)
  }

  /** The keyword at `i` opens a declaration the scanner reports. */
  predicate IsDeclarationAt(tokens: seq<Token>, i: int) {
    IsDeclKeyword(KindAt(tokens, i)) && !IsClassConstant(tokens, i)
  }

  /** The emitted name: `strtolower($namespace . '\\' . $name)` when the namespace is
      truthy, `strtolower($name)` otherwise. */
  function QualifiedName(ns: string, name: string): (r: string)
    ensures IsLowerCase(r)
    ensures Truthy(ns) ==> r == Lower(ns) + "\\" + Lower(name)
    ensures !Truthy(ns) ==> r == Lower(name)
  {
    LowerConcat(ns, "\\" + name);
    LowerConcat("\\", name);
    if Truthy(ns) then Lower(ns + "\\" + name) else Lower(name)
  }

  /** The inner `while` after `namespace`: append the texts of the run of T_STRING and
      T_NS_SEPARATOR tokens starting at `i`; returns the namespace and the index of the
      first token after the run. */
  function ReadNamespace(tokens: seq<Token>, i: nat, acc: string): (r: (string, nat))
    ensures r.1 >= i
    ensures !IsNamePart(KindAt(tokens, r.1))
    decreases |tokens| - i
  {
    if IsNamePart(KindAt(tokens, i)) then ReadNamespace(tokens, i + 1, acc + TextAt(tokens, i))
    else (acc, i)
  }

  /** The names the `for` loop still emits when it reaches index `i` with the current
      namespace `ns`. */
  function ScanFrom(tokens: seq<Token>, i: nat, ns: string): seq<string>
    decreases |tokens| - i
  {
    if i >= |tokens| then []
    else if KindAt(tokens, i) == Some(Namespace) then
      var (ns', j) := ReadNamespace(tokens, i + 2, "");
      ScanFrom(tokens, j + 1, ns')
    else if IsDeclarationAt(tokens, i) then
      [QualifiedName(ns, TextAt(tokens, i + 2))] + ScanFrom(tokens, i + 3, ns)
    else ScanFrom(tokens, i + 1, ns)
  }

  /** What `getClassesFromFile` returns for a file whose tokens are `tokens`. */
  function Scan(tokens: seq<Token>): seq<string> {
    ScanFrom(tokens, 0, "")
  }

  /** `getClassesFromFile`, given `token_get_all` of the file's contents. */
  method GetClassesFromFile(tokens: seq<Token>) returns (classes: seq<string>)
    ensures classes == Scan(tokens)
  {
    var namespace := "";
    classes := [];
    var i := 0;
    while i < |tokens|
      invariant classes + ScanFrom(tokens, i, namespace) == Scan(tokens)
      decreases |tokens| - i
    {
      if tokens[i].Lexeme? && tokens[i].kind == Namespace {
        ghost var start := i;
        namespace := "";
        i := i + 2;
        while IsNamePart(KindAt(tokens, i))
          invariant i >= start + 2
          invariant ReadNamespace(tokens, i, namespace) == ReadNamespace(tokens, start + 2, "")
          decreases |tokens| - i
        {
          namespace := namespace + tokens[i].text;
          i := i + 1;
        }
      } else if IsDeclKeyword(KindAt(tokens, i)) {
        if IsClassConstant(tokens, i) {
          // `continue 2`: only the for loop's own increment happens
        } else {
          i := i + 2;
          classes := classes + [QualifiedName(namespace, TextAt(tokens, i))];
        }
      }
      i := i + 1;
    }
  }

  // ---------------------------------------------------------------------------
  // Properties of the scan

  /** Every emitted name is lower-case. */
  lemma {:induction false} ScanFromLowerCase(tokens: seq<Token>, i: nat, ns: string)
    ensures forall k :: 0 <= k < |ScanFrom(tokens, i, ns)| ==> IsLowerCase(ScanFrom(tokens, i, ns)[k])
    decreases |tokens| - i
  {
    if i >= |tokens| {
    } else if KindAt(tokens, i) == Some(Namespace) {
      var (ns', j) := ReadNamespace(tokens, i + 2, "");
      ScanFromLowerCase(tokens, j + 1, ns');
    } else if IsDeclarationAt(tokens, i) {
      ScanFromLowerCase(tokens, i + 3, ns);
    } else {
      ScanFromLowerCase(tokens, i + 1, ns);
    }
  }

  lemma ScanLowerCase(tokens: seq<Token>)
    ensures forall k :: 0 <= k < |Scan(tokens)| ==> IsLowerCase(Scan(tokens)[k])
  {
    ScanFromLowerCase(tokens, 0, "");
  }

  /** The number of declaration keywords at index `i` or later, not counting `::class`. */
  function DeclarationsFrom(tokens: seq<Token>, i: nat): nat
    decreases |tokens| - i
  {
    if i >= |tokens| then 0
    else (if IsDeclarationAt(tokens, i) then 1 else 0) + DeclarationsFrom(tokens, i + 1)
  }

  lemma {:induction false} DeclarationsFromMonotone(tokens: seq<Token>, i: nat, j: nat)
    requires i <= j
    ensures DeclarationsFrom(tokens, j) <= DeclarationsFrom(tokens, i)
    decreases j - i
  {
    if i < j {
      DeclarationsFromMonotone(tokens, i + 1, j);
    }
  }

  /** At most one name per declaration keyword, and none for `::class`. */
  lemma {:induction false} ScanFromBounded(tokens: seq<Token>, i: nat, ns: string)
    ensures |ScanFrom(tokens, i, ns)| <= DeclarationsFrom(tokens, i)
    decreases |tokens| - i
  {
    if i >= |tokens| {
    } else if KindAt(tokens, i) == Some(Namespace) {
      var (ns', j) := ReadNamespace(tokens, i + 2, "");
      ScanFromBounded(tokens, j + 1, ns');
      DeclarationsFromMonotone(tokens, i, j + 1);
    } else if IsDeclarationAt(tokens, i) {
      ScanFromBounded(tokens, i + 3, ns);
      DeclarationsFromMonotone(tokens, i + 1, i + 3);
    } else {
      ScanFromBounded(tokens, i + 1, ns);
    }
  }

  lemma ScanBounded(tokens: seq<Token>)
    ensures |Scan(tokens)| <= DeclarationsFrom(tokens, 0)
  {
    ScanFromBounded(tokens, 0, "");
  }

  /** A file whose only `class` keywords are `Foo::class` references (and which has
      no `interface` or `trait` keyword) declares nothing. */
  lemma ClassConstantsDeclareNothing(tokens: seq<Token>)
    requires forall i :: 0 <= i < |tokens| ==> !IsDeclarationAt(tokens, i)
    ensures Scan(tokens) == []
  {
    NoDeclarationsCountZero(tokens, 0);
    ScanFromBounded(tokens, 0, "");
  }

  lemma {:induction false} NoDeclarationsCountZero(tokens: seq<Token>, i: nat)
    requires forall j :: 0 <= j < |tokens| ==> !IsDeclarationAt(tokens, j)
    ensures DeclarationsFrom(tokens, i) == 0
    decreases |tokens| - i
  {
    if i < |tokens| {
      NoDeclarationsCountZero(tokens, i + 1);
    }
  }

  /** The texts of tokens `i` up to (not including) `j`, concatenated. */
  function TextsBetween(tokens: seq<Token>, i: nat, j: nat): string
    decreases j - i
  {
    if i >= j then "" else TextAt(tokens, i) + TextsBetween(tokens, i + 1, j)
  }

  /** The namespace loop reads exactly the run of name parts, concatenating their texts. */
  lemma {:induction false} ReadNamespaceRun(tokens: seq<Token>, i: nat, j: nat, acc: string)
    requires i <= j
    requires forall k :: i <= k < j ==> IsNamePart(KindAt(tokens, k))
    requires !IsNamePart(KindAt(tokens, j))
    ensures ReadNamespace(tokens, i, acc) == (acc + TextsBetween(tokens, i, j), j)
    decreases j - i
  {
    if i == j {
      assert acc + "" == acc;
    } else {
      var t, rest := TextAt(tokens, i), TextsBetween(tokens, i + 1, j);
      ReadNamespaceRun(tokens, i + 1, j, acc + t);
      assert TextsBetween(tokens, i, j) == t + rest;
      assert (acc + t) + rest == acc + (t + rest);
    }
  }

  /** A token that is neither `namespace` nor a reported declaration keyword. */
  predicate IsPlain(tokens: seq<Token>, i: int) {
    KindAt(tokens, i) != Some(Namespace) && !IsDeclarationAt(tokens, i)
  }

  /** The loop steps over plain tokens one at a time without emitting anything. */
  lemma {:induction false} SkipPlain(tokens: seq<Token>, i: nat, j: nat, ns: string)
    requires i <= j <= |tokens|
    requires forall k :: i <= k < j ==> IsPlain(tokens, k)
    ensures ScanFrom(tokens, i, ns) == ScanFrom(tokens, j, ns)
    decreases j - i
  {
    if i < j {
      assert IsPlain(tokens, i);
      assert ScanFrom(tokens, i, ns) == ScanFrom(tokens, i + 1, ns);
      SkipPlain(tokens, i + 1, j, ns);
    }
  }

  /** `namespace A\B;` followed, after plain tokens only, by `class C`: the declaration
      is reported as `strtolower("A\B" . "\\" . "C")`, and the rest of the file is
      scanned with namespace `A\B`. The run of name parts ends at `e`; the token at `e`
      itself is skipped unexamined by the `for` loop's increment. */
  lemma NamespacedDeclaration(tokens: seq<Token>, p: nat, e: nat, k: nat, ns: string)
    requires p + 2 <= e < k < |tokens|
    requires KindAt(tokens, p) == Some(Namespace)
    requires forall j :: p + 2 <= j < e ==> IsNamePart(KindAt(tokens, j))
    requires !IsNamePart(KindAt(tokens, e))
    requires forall j :: e + 1 <= j < k ==> IsPlain(tokens, j)
    requires IsDeclarationAt(tokens, k)
    ensures ScanFrom(tokens, p, ns)
         == [QualifiedName(TextsBetween(tokens, p + 2, e), TextAt(tokens, k + 2))]
            + ScanFrom(tokens, k + 3, TextsBetween(tokens, p + 2, e))
  {
    var name := TextsBetween(tokens, p + 2, e);
    ReadNamespaceRun(tokens, p + 2, e, "");
    assert "" + name == name;
    assert ReadNamespace(tokens, p + 2, "") == (name, e);
    NamespaceStep(tokens, p, ns);
    assert ScanFrom(tokens, p, ns) == ScanFrom(tokens, e + 1, name);
    SkipPlain(tokens, e + 1, k, name);
    assert ScanFrom(tokens, e + 1, name) == ScanFrom(tokens, k, name);
    DeclarationStep(tokens, k, name);
  }

  /** One step of the loop at a `namespace` token. */
  lemma NamespaceStep(tokens: seq<Token>, p: nat, ns: string)
    requires p < |tokens| && KindAt(tokens, p) == Some(Namespace)
    ensures var (ns', j) := ReadNamespace(tokens, p + 2, "");
      ScanFrom(tokens, p, ns) == ScanFrom(tokens, j + 1, ns')
  {
  }

  /** One step of the loop at a reported declaration keyword. */
  lemma DeclarationStep(tokens: seq<Token>, k: nat, ns: string)
    requires k < |tokens| && IsDeclarationAt(tokens, k)
    ensures ScanFrom(tokens, k, ns) == [QualifiedName(ns, TextAt(tokens, k + 2))] + ScanFrom(tokens, k + 3, ns)
  {
  }

  /** With no `namespace` statement before it, a declaration is reported by its bare
      lower-cased name. */
  lemma GlobalDeclaration(tokens: seq<Token>, k: nat)
    requires k < |tokens|
    requires forall j :: 0 <= j < k ==> IsPlain(tokens, j)
    requires IsDeclarationAt(tokens, k)
    ensures Scan(tokens) == [Lower(TextAt(tokens, k + 2))] + ScanFrom(tokens, k + 3, "")
  {
    SkipPlain(tokens, 0, k, "");
  }

  /** `<?php namespace A\B; class C {}` as `token_get_all` returns it. */
  function ExampleFile(): seq<Token> {
    [ Lexeme(Other(379), "<?php "),
      Lexeme(Namespace, "namespace"), Lexeme(Other(382), " "),
      Lexeme(Name, "A"), Lexeme(NsSeparator, "\\"), Lexeme(Name, "B"), Char(';'),
      Lexeme(Other(382), " "),
      Lexeme(Class, "class"), Lexeme(Other(382), " "), Lexeme(Name, "C"),
      Lexeme(Other(382), " "), Char('{'), Char('}') ]
  }

  /** The shape of `ExampleFile()` that the scan depends on. */
  predicate HasExampleShape(t: seq<Token>) {
    && |t| == 14
    && IsPlain(t, 0)
    && KindAt(t, 1) == Some(Namespace)
    && (forall j :: 3 <= j < 6 ==> IsNamePart(KindAt(t, j)))
    && !IsNamePart(KindAt(t, 6))
    && IsPlain(t, 7)
    && IsDeclarationAt(t, 8)
    && IsPlain(t, 11) && IsPlain(t, 12) && IsPlain(t, 13)
  }

  lemma ExampleShapeScan(t: seq<Token>)
    requires HasExampleShape(t)
    ensures Scan(t) == [QualifiedName(TextsBetween(t, 3, 6), TextAt(t, 10))]
  {
    var ns := TextsBetween(t, 3, 6);
    SkipPlain(t, 0, 1, "");
    assert Scan(t) == ScanFrom(t, 1, "");
    NamespacedDeclaration(t, 1, 6, 8, "");
    assert ScanFrom(t, 1, "") == [QualifiedName(ns, TextAt(t, 10))] + ScanFrom(t, 11, ns);
    SkipPlain(t, 11, 14, ns);
    assert ScanFrom(t, 11, ns) == ScanFrom(t, 14, ns) == [];
  }

  lemma ExampleFileDeclaresABC()
    ensures Scan(ExampleFile()) == ["a\\b\\c"]
  {
    var t := ExampleFile();
    assert HasExampleShape(t) by {
      forall j | 3 <= j < 6 ensures IsNamePart(KindAt(t, j)) {
        assert j == 3 || j == 4 || j == 5;
      }
    }
    assert TextsBetween(t, 3, 6) == "A\\B" by {
      assert TextsBetween(t, 6, 6) == "";
      assert TextsBetween(t, 5, 6) == "B";
      assert TextsBetween(t, 4, 6) == "\\B";
    }
    assert TextAt(t, 10) == "C";
    assert QualifiedName("A\\B", "C") == "a\\b\\c" by {
      assert Lower("A\\B") == "a\\b";
      assert Lower("C") == "c";
    }
    ExampleShapeScan(t);
  }

  /** `$name = Foo::class;` declares nothing. */
  lemma ClassConstantExample()
    ensures Scan([ Lexeme(Other(379), "<?php "), Lexeme(Other(320), "$name"), Char('='),
                   Lexeme(Name, "Foo"), Lexeme(DoubleColon, "::"), Lexeme(Class, "class"),
                   Char(';') ]) == []
  {
    var t := [ Lexeme(Other(379), "<?php "), Lexeme(Other(320), "$name"), Char('='),
               Lexeme(Name, "Foo"), Lexeme(DoubleColon, "::"), Lexeme(Class, "class"),
               Char(';') ];
    assert IsClassConstant(t, 5);
    ClassConstantsDeclareNothing(t);
  }
}
