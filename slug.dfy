/** Feature slugs: the only guard applied before a file name is built from a URL segment
    (`validate_feature`, serve.py lines 32-33). */
module Slug {

  /** One character of the regular-expression class `[a-z0-9-]`. */
  predicate IsSlugChar(c: char) {
    ('a' <= c <= 'z') || ('0' <= c <= '9') || c == '-'
  }

  predicate AllSlugChars(s: string) {
    forall i :: 0 <= i < |s| ==> IsSlugChar(s[i])
  }

  /** How many characters the greedy `[a-z0-9-]+` consumes from the start of `s`. */
  function SlugRun(s: string): (k: nat)
    ensures k <= |s|
    ensures AllSlugChars(s[..k])
    ensures k < |s| ==> !IsSlugChar(s[k])
  {
    if s == [] || !IsSlugChar(s[0]) then 0
    else
      var k' := SlugRun(s[1..]);
      assert s[..1 + k'] == [s[0]] + s[1..][..k'];
      1 + k'
  }

  /** `bool(re.match(r"^[a-z0-9-]+$", s))`.  The run of slug characters must be non-empty
      and be followed by the end of the string, or by a newline that is the last character:
      in Python, `$` without MULTILINE also matches just before a final newline.  Backtracking
      to a shorter run cannot help, because a slug character is never a newline. */
  function ValidateFeature(s: string): bool {
    var k := SlugRun(s);
    k >= 1 && (k == |s| || (k == |s| - 1 && s[k] == '\n'))
  }

  /** The accepted strings, stated without the scanner: a non-empty run of `[a-z0-9-]`,
      optionally followed by a single final newline. */
  lemma ValidateFeatureIff(s: string)
    ensures ValidateFeature(s) <==>
      (s != [] && AllSlugChars(s)) ||
      (|s| >= 2 && s[|s| - 1] == '\n' && AllSlugChars(s[..|s| - 1]))
  {
    var k := SlugRun(s);
    if s != [] && AllSlugChars(s) {
      assert k == |s|;
    } else if |s| >= 2 && s[|s| - 1] == '\n' && AllSlugChars(s[..|s| - 1]) {
      assert !IsSlugChar(s[|s| - 1]);
      assert k == |s| - 1;
    }
    if ValidateFeature(s) {
      if k == |s| {
        assert s[..k] == s;
      } else {
        assert s[..k] == s[..|s| - 1];
      }
    }
  }

  /** A validated slug can never name a parent directory or another directory: it holds no
      `/` and no `.`, and every character but a possible final newline is in `[a-z0-9-]`. */
  lemma ValidSlugIsFileSafe(s: string)
    requires ValidateFeature(s)
    ensures s != []
    ensures forall i :: 0 <= i < |s| ==> s[i] != '/' && s[i] != '.'
    ensures forall i :: 0 <= i < |s| - 1 ==> IsSlugChar(s[i])
  {
    ValidateFeatureIff(s);
    if !AllSlugChars(s) {
      forall i | 0 <= i < |s| - 1 ensures IsSlugChar(s[i]) {
        assert s[..|s| - 1][i] == s[i];
      }
    }
  }

  /** Without a newline in the string, the Python quirk does not arise and the guard is
      exactly "non-empty and every character in `[a-z0-9-]`". */
  lemma ValidateFeatureWithoutNewline(s: string)
    requires forall i :: 0 <= i < |s| ==> s[i] != '\n'
    ensures ValidateFeature(s) <==> s != [] && AllSlugChars(s)
  {
    ValidateFeatureIff(s);
  }

  /** The quirk itself: a valid slug followed by one newline is accepted as well. */
  lemma TrailingNewlineAccepted(s: string)
    requires s != [] && AllSlugChars(s)
    ensures ValidateFeature(s + "\n")
    ensures !ValidateFeature(s + "\n\n")
  {
    var t := s + "\n";
    assert t[..|t| - 1] == s;
    ValidateFeatureIff(t);
    var u := s + "\n\n";
    ValidateFeatureIff(u);
    assert !IsSlugChar(u[|u| - 2]);
    assert u[..|u| - 1][|u| - 2] == u[|u| - 2];
  }
}
