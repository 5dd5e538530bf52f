/**
  The agent's hop-by-hop header filter (edge/app.py): an upstream header is
  dropped when its lower-cased name is one of five lower-cased connection-level
  names, and kept with its value otherwise.
 */
module HopByHop {
  import opened Wire


  /**
    Python's `str.lower` on one character, as far as a comparison against ASCII
    names can observe it: ASCII capitals and the Kelvin sign map to ASCII lower
    case; every other character is left as it is.
   */
  function LowerChar(c: char): (d: char)
    ensures 'A' <= c <= 'Z' ==> d as int == c as int + 32
    ensures c == KelvinSign ==> d == 'k'
    ensures !('A' <= c <= 'Z') && c != KelvinSign ==> d == c
    ensures !('A' <= d <= 'Z') && d != KelvinSign
  {
    if 'A' <= c <= 'Z' then (c as int + 32) as char
    else if c == KelvinSign then 'k'
    else c
  }

  /** Lower-casing a character twice gives the same as once. */
  lemma LowerCharIdempotent(c: char)
    ensures LowerChar(LowerChar(c)) == LowerChar(c)
  {
  }

  /** `s.lower()`: every character lower-cased in place. */
  function Lower(s: string): (r: string)
    ensures |r| == |s|
    ensures forall i :: 0 <= i < |s| ==> r[i] == LowerChar(s[i])
  {
    seq(|s|, i requires 0 <= i < |s| => LowerChar(s[i]))
  }

  /** Lower-casing a whole string is idempotent. */
  lemma LowerIdempotent(s: string)
    ensures Lower(Lower(s)) == Lower(s)
  {
  }

  /** The names the agent strips, as spelled in edge/app.py. */
  const Remove: set<string> :=
    {"Content-Encoding", "Content-Length", "Transfer-Encoding", "Connection", "Keep-Alive"}

  /** The same five names in lower case. */
  const RemoveLower: set<string> :=
    {"content-encoding", "content-length", "transfer-encoding", "connection", "keep-alive"}

  /** The set the source compares against, `{r.lower() for r in remove}`. */
  function LoweredRemove(): (lowered: set<string>)
  {
    set r | r in Remove :: Lower(r)
  }

  /** Lowering the five source spellings yields exactly the five lower-case names. */
  lemma LoweredRemoveIsLiteral()
    ensures LoweredRemove() == RemoveLower
  {
    LowerOfNames();
    assert LoweredRemove() <= RemoveLower;
    assert RemoveLower <= LoweredRemove() by {
      assert "content-encoding" == Lower("Content-Encoding");
      assert "content-length" == Lower("Content-Length");
      assert "transfer-encoding" == Lower("Transfer-Encoding");
      assert "connection" == Lower("Connection");
      assert "keep-alive" == Lower("Keep-Alive");
    }
  }

  /** Each listed spelling lowers to its lower-case name. */
  lemma LowerOfNames()
    ensures Lower("Content-Encoding") == "content-encoding"
    ensures Lower("Content-Length") == "content-length"
    ensures Lower("Transfer-Encoding") == "transfer-encoding"
    ensures Lower("Connection") == "connection"
    ensures Lower("Keep-Alive") == "keep-alive"
  {
    LowerAsciiWord("Content-Encoding", "content-encoding");
    LowerAsciiWord("Content-Length", "content-length");
    LowerAsciiWord("Transfer-Encoding", "transfer-encoding");
    LowerAsciiWord("Connection", "connection");
    LowerAsciiWord("Keep-Alive", "keep-alive");
  }

  /** Lowering agrees with a target string that matches it character by character. */
  lemma LowerAsciiWord(s: string, t: string)
    requires |s| == |t| && forall i :: 0 <= i < |s| ==> LowerChar(s[i]) == t[i]
    ensures Lower(s) == t
  {
  }

  /** Whether the agent drops a header with name `k`. */
  predicate IsHopByHop(k: string)
  {
    Lower(k) in LoweredRemove()
  }

  /** Two names are equal ignoring case when they agree character by character after lowering. */
  predicate EqualsIgnoringCase(a: string, b: string)
  {
    |a| == |b| && forall i :: 0 <= i < |a| ==> LowerChar(a[i]) == LowerChar(b[i])
  }

  /**
    The filter decides by case-insensitive comparison: a name is hop-by-hop
    exactly when it equals one of the five source names ignoring case.
   */
  lemma IsHopByHopIffCaseVariant(k: string)
    ensures IsHopByHop(k) <==> exists r :: r in Remove && EqualsIgnoringCase(k, r)
  {
    if IsHopByHop(k) {
      var r :| r in Remove && Lower(r) == Lower(k);
      assert EqualsIgnoringCase(k, r) by {
        forall i | 0 <= i < |k|
          ensures LowerChar(k[i]) == LowerChar(r[i])
        {
          assert Lower(k)[i] == Lower(r)[i];
        }
      }
    }
    if exists r :: r in Remove && EqualsIgnoringCase(k, r) {
      var r :| r in Remove && EqualsIgnoringCase(k, r);
      assert Lower(k) == Lower(r);
    }
  }

  /**
    The header comprehension of edge/app.py: keep every upstream header whose
    lower-cased name is not one of the five, with its value unchanged.
   */
  function Filter(h: Headers): (r: Headers)
    ensures forall k :: k in r ==> Lower(k) !in RemoveLower
    ensures forall k :: k in h && Lower(k) !in RemoveLower ==> k in r && r[k] == h[k]
    ensures forall k :: k in r ==> k in h && r[k] == h[k]
  {
    LoweredRemoveIsLiteral();
    map k | k in h && !IsHopByHop(k) :: h[k]
  }

  /** Filtering an already filtered map changes nothing. */
  lemma FilterIdempotent(h: Headers)
    ensures Filter(Filter(h)) == Filter(h)
  {
  }

  /** Every spelling of a listed name, in any letter case, is stripped. */
  lemma CaseVariantIsStripped(h: Headers, k: string, name: string)
    requires k in h && name in Remove && EqualsIgnoringCase(k, name)
    ensures k !in Filter(h)
  {
    IsHopByHopIffCaseVariant(k);
    LoweredRemoveIsLiteral();
  }

  /** A header name that matches no listed name ignoring case survives with its value. */
  lemma OtherNameIsKept(h: Headers, k: string)
    requires k in h && forall r :: r in Remove ==> !EqualsIgnoringCase(k, r)
    ensures k in Filter(h) && Filter(h)[k] == h[k]
  {
    IsHopByHopIffCaseVariant(k);
    LoweredRemoveIsLiteral();
  }

  /** `Keep-Alive` spelled with a Kelvin sign lower-cases to `keep-alive` and is stripped too. */
  lemma KelvinKeepAliveIsStripped(value: string)
    ensures Filter(map[[KelvinSign] + "eep-Alive" := value]) == map[]
  {
    var k := [KelvinSign] + "eep-Alive";
    assert Lower(k) == "keep-alive";
  }
}
