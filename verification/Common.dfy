/** Declarations shared by the models of the control plane. */
module Common {

  datatype Option<+T> = None | Some(value: T) {

    function GetOr(default: T): T {
      match this
      case Some(v) => v
      case None => default
    }
  }

  /** One revision of a tool.  The program joins the two parts into the text
      `name@version`; a semantic version holds no '@', so the pair stands for that text. */
  datatype RevisionKey = Revision(name: string, version: string)

  /** The byte order of texts. */
  predicate TextBefore(s: string, t: string) {
    t != "" && (s == "" || s[0] < t[0] || (s[0] == t[0] && TextBefore(s[1..], t[1..])))
  }

  lemma {:induction false} TextsAreOrdered(s: string, t: string, u: string)
    ensures !(TextBefore(s, t) && TextBefore(t, s))
    ensures !TextBefore(t, s) && !TextBefore(u, t) ==> !TextBefore(u, s)
    decreases |s| + |t| + |u|
  {
    if s != "" && t != "" {
      TextsAreOrdered(s[1..], t[1..], if u == "" then "" else u[1..]);
    }
  }

  /** The texts agree before `k`, and `s` has the smaller character there. */
  predicate SmallerAt(s: string, t: string, k: int) {
    0 <= k < |s| && k < |t| && s[..k] == t[..k] && s[k] < t[k]
  }

  /** One text is before another if it is a beginning of it, or smaller where they first differ. */
  lemma {:induction false} TextBeforeIs(s: string, t: string)
    ensures TextBefore(s, t) <==> s < t || exists k :: SmallerAt(s, t, k)
    decreases |s|
  {
    if s != "" && t != "" {
      if s[0] == t[0] {
        TextBeforeIs(s[1..], t[1..]);
        SmallerBehindHead(s, t);
        assert s < t <==> s[1..] < t[1..] by { assert s == [s[0]] + s[1..] && t == [t[0]] + t[1..]; }
      } else {
        assert s[0] < t[0] <==> SmallerAt(s, t, 0);
        assert !(s < t);
      }
    }
  }

  lemma SmallerBehindHead(s: string, t: string)
    requires s != "" && t != "" && s[0] == t[0]
    ensures (exists k :: SmallerAt(s, t, k)) <==> exists k :: SmallerAt(s[1..], t[1..], k)
  {
    if k :| SmallerAt(s, t, k) {
      assert s[1..][..k - 1] == s[..k][1..] && t[1..][..k - 1] == t[..k][1..];
      assert SmallerAt(s[1..], t[1..], k - 1);
    }
    if k :| SmallerAt(s[1..], t[1..], k) {
      assert s[..k + 1] == [s[0]] + s[1..][..k] && t[..k + 1] == [t[0]] + t[1..][..k];
      assert SmallerAt(s, t, k + 1);
    }
  }

  lemma SubsetCount<T>(a: set<T>, b: set<T>)
    requires a <= b
    ensures |a| <= |b|
  {
    assert b == a + (b - a);
  }
}
