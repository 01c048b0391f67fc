/** The "active" marker that the game adds to a panel's class name while the
    panel is lit, and the two operations of the `Active` trait on DOM
    elements: `set_active` and `set_inactive`. */
module Active {

  /** What `set_active` appends: `format!("{} {}", name, "active")` is the old
      name, a space and the word "active". */
  const Marker: string := " active"

  /** The marker starts at position `i` of `s`. */
  ghost predicate MarkerAt(s: string, i: int) {
    0 <= i && i + |Marker| <= |s| && s[i..i + |Marker|] == Marker
  }

  ghost predicate ContainsMarker(s: string) {
    exists i :: MarkerAt(s, i)
  }

  /** `name.replace(" active", "")`: the string is scanned from the left, and
      each occurrence of the marker that does not overlap one already removed
      is deleted; the rest of the text is kept in order. */
  function RemoveMarker(s: string): (r: string)
    ensures |r| <= |s|
  {
    if |s| == 0 then s
    else if Marker <= s then RemoveMarker(s[|Marker|..])
    else [s[0]] + RemoveMarker(s[1..])
  }

  /** Only the first character of the marker is a space, so the marker never
      overlaps itself. */
  lemma MarkerTailHasNoSpace(j: int)
    requires 1 <= j < |Marker|
    ensures Marker[j] != ' '
  {
  }

  /** A marker occurs in a non-empty string exactly when it starts the string
      or occurs in what follows the first character. */
  lemma {:induction false} ContainsMarkerUncons(s: string)
    requires |s| > 0
    ensures ContainsMarker(s) <==> Marker <= s || ContainsMarker(s[1..])
  {
    if ContainsMarker(s) && !(Marker <= s) {
      var i :| MarkerAt(s, i);
      assert s[1..][i - 1..i - 1 + |Marker|] == s[i..i + |Marker|];
      assert MarkerAt(s[1..], i - 1);
    }
    if Marker <= s {
      assert MarkerAt(s, 0);
    }
    if ContainsMarker(s[1..]) {
      var i :| MarkerAt(s[1..], i);
      assert s[i + 1..i + 1 + |Marker|] == s[1..][i..i + |Marker|];
      assert MarkerAt(s, i + 1);
    }
  }

  /** `set_inactive` leaves a class name alone exactly when the name holds no
      marker: a name without one is unchanged, and a name with one gets
      shorter. */
  lemma {:induction false} RemoveMarkerIdentity(s: string)
    ensures RemoveMarker(s) == s <==> !ContainsMarker(s)
    ensures ContainsMarker(s) ==> |RemoveMarker(s)| < |s|
  {
    if |s| == 0 {
      forall i ensures !MarkerAt(s, i) { }
    } else {
      ContainsMarkerUncons(s);
      if !(Marker <= s) {
        RemoveMarkerIdentity(s[1..]);
        var tail := RemoveMarker(s[1..]);
        assert RemoveMarker(s) == [s[0]] + tail;
        assert s == [s[0]] + s[1..];
        if RemoveMarker(s) == s {
          assert tail == RemoveMarker(s)[1..];
        }
      }
    }
  }

  /** Removing the markers from a name that ends in a freshly appended marker
      gives the same name as removing them from the name without it: the scan
      reaches the appended marker exactly at its first character, because no
      match can start inside the old name and reach into it. */
  lemma {:induction false} RemoveAppendedMarker(s: string)
    ensures RemoveMarker(s + Marker) == RemoveMarker(s)
  {
    if |s| == 0 {
      assert s + Marker == Marker;
      assert Marker[|Marker|..] == "";
    } else if Marker <= s {
      assert (s + Marker)[..|Marker|] == s[..|Marker|];
      assert (s + Marker)[|Marker|..] == s[|Marker|..] + Marker;
      RemoveAppendedMarker(s[|Marker|..]);
    } else {
      if |s| < |Marker| && Marker <= s + Marker {
        assert (s + Marker)[|s|] == ' ';
        MarkerTailHasNoSpace(|s|);
        assert false;
      }
      assert (s + Marker)[1..] == s[1..] + Marker;
      RemoveAppendedMarker(s[1..]);
    }
  }

  /** `set_active` followed by `set_inactive` restores a name without the
      marker. */
  lemma ActivateThenDeactivate(s: string)
    requires !ContainsMarker(s)
    ensures RemoveMarker(s + Marker) == s
  {
    RemoveAppendedMarker(s);
    RemoveMarkerIdentity(s);
  }

  /** The marker is not de-duplicated: two `set_active` calls append it twice,
      and one `set_inactive` still restores a name without the marker. */
  lemma ActivateTwiceThenDeactivate(s: string)
    requires !ContainsMarker(s)
    ensures s + Marker + Marker != s + Marker
    ensures RemoveMarker(s + Marker + Marker) == s
  {
    RemoveAppendedMarker(s + Marker);
    ActivateThenDeactivate(s);
  }

  /** One pass of `replace` can join two halves into a new marker, so a name
      may still hold the marker after `set_inactive`. */
  lemma OnePassCanLeaveMarker(s: string)
    requires s == "  activeactive"
    ensures RemoveMarker(s) == Marker
  {
    var tail := s[1..];
    assert Marker <= tail;
    assert !ContainsMarker(tail[|Marker|..]);
    RemoveMarkerIdentity(tail[|Marker|..]);
    assert tail[|Marker|..] == Marker[1..];
  }

  /** A DOM element as far as the game uses it: its class name, which the
      panels toggle, and its text, which the score element shows. */
  class Element {
    var className: string
    var textContent: string

    /** `set_active`: the class name gains the marker at its end. */
    method SetActive()
      modifies this`className
      ensures className == old(className) + Marker
      ensures |className| == |old(className)| + 7
    {
      className := className + Marker;
    }

    /** `set_inactive`: the class name loses every marker one pass of
        `replace` finds. */
    method SetInactive()
      modifies this`className
      ensures className == RemoveMarker(old(className))
      ensures !ContainsMarker(old(className)) ==> className == old(className)
    {
      RemoveMarkerIdentity(className);
      className := RemoveMarker(className);
    }
  }
}
