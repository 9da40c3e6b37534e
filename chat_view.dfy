/** Deciding which participant of a chat is the reader ("me"): a cascade of
    exact, then partial, then fallback matches of the stored and the entered
    name against the participants, and the per-message "is me" test. */
module ChatView {
  import opened Wrappers
  import opened Strings

  // ---------------------------------------------------------------------
  // normalize

  /** `normalize(name)`: `(name || "").trim().toLowerCase()`. `None` is a
      null or undefined name; the empty string is falsy and also gives "". */
  function Normalize(name: Option<string>): string {
    ToLower(Trim(name.GetOr("")))
  }

  /** A normalised name has no surrounding white space and no upper-case
      letter, and is no longer than the name. */
  lemma NormalizeShape(name: Option<string>)
    ensures var r := Normalize(name);
      && (r == [] || (!IsSpace(r[0]) && !IsSpace(r[|r| - 1])))
      && HasNoUpper(r)
      && |r| <= |name.GetOr("")|
  {
    var t := Trim(name.GetOr(""));
    if t != [] {
      LowerKeepsSpace(t[0]);
      LowerKeepsSpace(t[|t| - 1]);
    }
  }

  lemma LowerKeepsSpace(c: char)
    ensures IsSpace(LowerChar(c)) <==> IsSpace(c)
    ensures !('A' <= LowerChar(c) <= 'Z')
  {
  }

  /** Normalising twice is normalising once. */
  lemma NormalizeIdempotent(name: Option<string>)
    ensures Normalize(Some(Normalize(name))) == Normalize(name)
  {
    var t := Normalize(name);
    NormalizeShape(name);
    TrimFixed(t);
    ToLowerFixed(t);
  }

  // ---------------------------------------------------------------------
  // matchNormalized / matchPartial

  /** One entry of `normalizedParticipants`. */
  datatype Entry = Entry(original: string, normalized: string)

  /** `participantList.map(p => ({ original: p, normalized: normalize(p) }))`. */
  function Entries(ps: seq<string>): seq<Entry> {
    seq(|ps|, i requires 0 <= i < |ps| => Entry(ps[i], Normalize(Some(ps[i]))))
  }

  /** `normalized.includes(target) || target.includes(normalized)`. */
  predicate Overlaps(normalized: string, target: string) {
    Contains(normalized, target) || Contains(target, normalized)
  }

  /** `matchNormalized(target)`: the original of the first entry whose
      normalised name equals the target. */
  function MatchNormalized(es: seq<Entry>, target: string): (r: Option<string>)
    ensures r.None? <==> forall i :: 0 <= i < |es| ==> es[i].normalized != target
    ensures r.Some? ==> exists i :: 0 <= i < |es| && r.value == es[i].original && es[i].normalized == target && (forall j :: 0 <= j < i ==> es[j].normalized != target)
  {
    if es == [] then None
    else if es[0].normalized == target then Some(es[0].original)
    else
      var r := MatchNormalized(es[1..], target);
      assert forall i :: 1 <= i < |es| ==> es[i] == es[1..][i - 1];
      r
  }

  /** `matchPartial(target)`: the original of the first entry whose
      normalised name contains the target or is contained in it. */
  function MatchPartial(es: seq<Entry>, target: string): (r: Option<string>)
    ensures r.None? <==> forall i :: 0 <= i < |es| ==> !Overlaps(es[i].normalized, target)
    ensures r.Some? ==> exists i :: 0 <= i < |es| && r.value == es[i].original && Overlaps(es[i].normalized, target) && (forall j :: 0 <= j < i ==> !Overlaps(es[j].normalized, target))
  {
    if es == [] then None
    else if Overlaps(es[0].normalized, target) then Some(es[0].original)
    else
      var r := MatchPartial(es[1..], target);
      assert forall i :: 1 <= i < |es| ==> es[i] == es[1..][i - 1];
      r
  }

  /** An exact match is also a partial one (a string contains itself), so
      where nothing overlaps nothing matches exactly either. */
  lemma ExactIsPartial(es: seq<Entry>, target: string)
    ensures MatchPartial(es, target).None? ==> MatchNormalized(es, target).None?
  {
    if MatchNormalized(es, target).Some? {
      var i :| 0 <= i < |es| && es[i].normalized == target;
      assert target <= target;
      assert Contains(es[i].normalized, target);
    }
  }

  /** The empty name normalises to the empty string and so overlaps every
      target: an empty participant is found by `matchPartial` for any target. */
  lemma EmptyOverlapsAll(target: string)
    ensures Normalize(Some("")) == "" && Overlaps(Normalize(Some("")), target)
  {
    assert "" <= target;
  }

  /** A non-empty target is only matched exactly by a non-empty participant,
      so `matchNormalized` never returns a falsy value for it. */
  lemma ExactMatchTruthy(ps: seq<string>, target: string)
    requires target != "" && MatchNormalized(Entries(ps), target).Some?
    ensures MatchNormalized(Entries(ps), target).value != ""
  {
    var es := Entries(ps);
    var i :| 0 <= i < |es| && MatchNormalized(es, target).value == es[i].original && es[i].normalized == target;
    assert es[i].normalized == Normalize(Some(ps[i]));
    if ps[i] == "" {
      EmptyOverlapsAll(target);
    }
  }

  // ---------------------------------------------------------------------
  // The yourDisplayName cascade

  /** `a || b` on an optional string: `undefined` and "" are falsy. */
  function OrElse(a: Option<string>, b: string): string {
    if a.Some? && a.value != "" then a.value else b
  }

  /** `matchNormalized(t) || matchPartial(t) || fallback`. */
  function Pick(es: seq<Entry>, target: string, fallback: string): string {
    OrElse(MatchNormalized(es, target), OrElse(MatchPartial(es, target), fallback))
  }

  /** The name stored with the chat is non-empty and literally a participant. */
  predicate StoredIsParticipant(yourName: Option<string>, ps: seq<string>) {
    yourName.Some? && yourName.value != "" && yourName.value in ps
  }

  /** The value of `yourDisplayName` after each of the three `if` blocks. */
  function AfterStored(yourName: Option<string>, ps: seq<string>): string {
    if StoredIsParticipant(yourName, ps) then yourName.value
    else if Normalize(yourName) != "" then Pick(Entries(ps), Normalize(yourName), "")
    else ""
  }

  function AfterEntered(yourName: Option<string>, enteredName: Option<string>, ps: seq<string>): string {
    var a := AfterStored(yourName, ps);
    if a == "" && Normalize(enteredName) != "" then Pick(Entries(ps), Normalize(enteredName), enteredName.GetOr(""))
    else a
  }

  /** The resolved `yourDisplayName`; `participants` is `None` when missing. */
  function DisplayName(yourName: Option<string>, enteredName: Option<string>, participants: Option<seq<string>>): string {
    var ps := participants.GetOr([]);
    var b := AfterEntered(yourName, enteredName, ps);
    if b == "" && |ps| > 0 then ps[0] else b
  }

  /** The component's assignments to `yourDisplayName`, in order. */
  method ResolveDisplayName(yourName: Option<string>, enteredName: Option<string>, participants: Option<seq<string>>)
    returns (you: string)
    ensures you == DisplayName(yourName, enteredName, participants)
    ensures StoredIsParticipant(yourName, participants.GetOr([])) ==> you == yourName.value
  {
    var participantList := participants.GetOr([]);
    var normalizedParticipants := Entries(participantList);
    var normalizedEntered := Normalize(enteredName);
    var normalizedStored := Normalize(yourName);
    you := "";
    if yourName.Some? && yourName.value != "" && yourName.value in participantList {
      you := yourName.value;
    } else if normalizedStored != "" {
      you := OrElse(MatchNormalized(normalizedParticipants, normalizedStored),
                    OrElse(MatchPartial(normalizedParticipants, normalizedStored), ""));
    }
    assert you == AfterStored(yourName, participantList);
    if you == "" && normalizedEntered != "" {
      you := OrElse(MatchNormalized(normalizedParticipants, normalizedEntered),
                    OrElse(MatchPartial(normalizedParticipants, normalizedEntered), enteredName.GetOr("")));
    }
    assert you == AfterEntered(yourName, enteredName, participantList);
    if you == "" && |participantList| > 0 {
      you := participantList[0];
    }
  }

  /** A pick is the fallback or a participant. */
  lemma PickOrigin(ps: seq<string>, target: string, fallback: string)
    ensures Pick(Entries(ps), target, fallback) == fallback || Pick(Entries(ps), target, fallback) in ps
  {
    var es := Entries(ps);
    var m, p := MatchNormalized(es, target), MatchPartial(es, target);
    if m.Some? && m.value != "" {
      var i :| 0 <= i < |es| && m.value == es[i].original;
      assert es[i].original == ps[i];
    } else if p.Some? && p.value != "" {
      var i :| 0 <= i < |es| && p.value == es[i].original;
      assert es[i].original == ps[i];
    }
  }

  /** The resolved name is a participant, the entered name, or "". */
  lemma DisplayNameOrigin(yourName: Option<string>, enteredName: Option<string>, participants: Option<seq<string>>)
    ensures var you := DisplayName(yourName, enteredName, participants);
      you == "" || you in participants.GetOr([]) || (enteredName.Some? && you == enteredName.value)
  {
    var ps := participants.GetOr([]);
    var a := AfterStored(yourName, ps);
    if !StoredIsParticipant(yourName, ps) && Normalize(yourName) != "" {
      PickOrigin(ps, Normalize(yourName), "");
    }
    assert a == "" || a in ps;
    var b := AfterEntered(yourName, enteredName, ps);
    if a == "" && Normalize(enteredName) != "" {
      PickOrigin(ps, Normalize(enteredName), enteredName.GetOr(""));
    }
    assert b == "" || b in ps || (enteredName.Some? && b == enteredName.value);
  }

  /** With a first participant that has a name, someone is always "me". */
  lemma DisplayNameNonEmpty(yourName: Option<string>, enteredName: Option<string>, participants: Option<seq<string>>)
    requires participants.Some? && participants.value != [] && participants.value[0] != ""
    ensures DisplayName(yourName, enteredName, participants) != ""
  {
  }

  /** A stored name that is not literally a participant resolves to the
      first participant whose normalised name equals its normalised form,
      ahead of any partial match. */
  lemma StoredExactMatchWins(yourName: Option<string>, enteredName: Option<string>, participants: Option<seq<string>>, i: nat)
    requires !StoredIsParticipant(yourName, participants.GetOr([])) && Normalize(yourName) != ""
    requires i < |participants.GetOr([])| && Normalize(Some(participants.GetOr([])[i])) == Normalize(yourName)
    requires forall j :: 0 <= j < i ==> Normalize(Some(participants.GetOr([])[j])) != Normalize(yourName)
    ensures DisplayName(yourName, enteredName, participants) == participants.GetOr([])[i]
  {
    var ps := participants.GetOr([]);
    var es := Entries(ps);
    var t := Normalize(yourName);
    FirstExactMatch(es, t, i);
    ExactMatchTruthy(ps, t);
    assert AfterStored(yourName, ps) == ps[i];
    assert AfterEntered(yourName, enteredName, ps) == ps[i];
  }

  /** The exact match is the first entry whose normalised name is the target. */
  lemma FirstExactMatch(es: seq<Entry>, target: string, i: nat)
    requires i < |es| && es[i].normalized == target
    requires forall j :: 0 <= j < i ==> es[j].normalized != target
    ensures MatchNormalized(es, target) == Some(es[i].original)
  {
    var k :| 0 <= k < |es| && MatchNormalized(es, target).value == es[k].original && es[k].normalized == target &&
      (forall j :: 0 <= j < k ==> es[j].normalized != target);
    assert k == i;
  }

  /** The partial match is the first entry that overlaps the target. */
  lemma FirstPartialMatch(es: seq<Entry>, target: string, i: nat)
    requires i < |es| && Overlaps(es[i].normalized, target)
    requires forall j :: 0 <= j < i ==> !Overlaps(es[j].normalized, target)
    ensures MatchPartial(es, target) == Some(es[i].original)
  {
    var k :| 0 <= k < |es| && MatchPartial(es, target).value == es[k].original && Overlaps(es[k].normalized, target) &&
      (forall j :: 0 <= j < k ==> !Overlaps(es[j].normalized, target));
    assert k == i;
  }

  /** No participant's normalised name equals the target. */
  predicate NoExactMatch(ps: seq<string>, target: string) {
    forall j :: 0 <= j < |ps| ==> Normalize(Some(ps[j])) != target
  }

  /** `ps[i]` is the first participant whose normalised name overlaps the
      target. */
  predicate FirstOverlap(ps: seq<string>, target: string, i: nat) {
    i < |ps| && Overlaps(Normalize(Some(ps[i])), target) &&
    forall j :: 0 <= j < i ==> !Overlaps(Normalize(Some(ps[j])), target)
  }

  /** With no exact match, `Pick` takes the first overlapping participant,
      or the fallback when that participant is the empty string. */
  lemma PickPartial(ps: seq<string>, target: string, fallback: string, i: nat)
    requires NoExactMatch(ps, target) && FirstOverlap(ps, target, i)
    ensures Pick(Entries(ps), target, fallback) == (if ps[i] != "" then ps[i] else fallback)
  {
    var es := Entries(ps);
    assert forall j :: 0 <= j < |ps| ==> es[j].normalized == Normalize(Some(ps[j]));
    assert MatchNormalized(es, target).None?;
    FirstPartialMatch(es, target, i);
  }

  /** Stored-name partial tier: a stored name that is not literally a
      participant and matches none exactly resolves to the first participant
      overlapping it. */
  lemma StoredPartialMatch(yourName: Option<string>, enteredName: Option<string>, participants: Option<seq<string>>, i: nat)
    requires !StoredIsParticipant(yourName, participants.GetOr([])) && Normalize(yourName) != ""
    requires NoExactMatch(participants.GetOr([]), Normalize(yourName))
    requires FirstOverlap(participants.GetOr([]), Normalize(yourName), i)
    ensures AfterStored(yourName, participants.GetOr([])) == participants.GetOr([])[i]
    ensures participants.GetOr([])[i] != "" ==> DisplayName(yourName, enteredName, participants) == participants.GetOr([])[i]
  {
    var ps := participants.GetOr([]);
    PickPartial(ps, Normalize(yourName), "", i);
    assert AfterStored(yourName, ps) == ps[i];
  }

  /** Entered-name exact tier: when the stored name gives nothing, a
      non-blank entered name resolves to the first participant whose
      normalised name equals its normalised form. */
  lemma EnteredExactMatch(yourName: Option<string>, enteredName: Option<string>, participants: Option<seq<string>>, i: nat)
    requires AfterStored(yourName, participants.GetOr([])) == "" && Normalize(enteredName) != ""
    requires i < |participants.GetOr([])| && Normalize(Some(participants.GetOr([])[i])) == Normalize(enteredName)
    requires forall j :: 0 <= j < i ==> Normalize(Some(participants.GetOr([])[j])) != Normalize(enteredName)
    ensures DisplayName(yourName, enteredName, participants) == participants.GetOr([])[i]
  {
    var ps := participants.GetOr([]);
    var t := Normalize(enteredName);
    FirstExactMatch(Entries(ps), t, i);
    ExactMatchTruthy(ps, t);
    assert AfterEntered(yourName, enteredName, ps) == ps[i];
  }

  /** Entered-name partial tier: with no exact match, the first participant
      overlapping the entered name wins; an empty one falls through to the
      entered name itself. */
  lemma EnteredPartialMatch(yourName: Option<string>, enteredName: Option<string>, participants: Option<seq<string>>, i: nat)
    requires AfterStored(yourName, participants.GetOr([])) == "" && Normalize(enteredName) != ""
    requires NoExactMatch(participants.GetOr([]), Normalize(enteredName))
    requires FirstOverlap(participants.GetOr([]), Normalize(enteredName), i)
    ensures DisplayName(yourName, enteredName, participants) ==
      (if participants.GetOr([])[i] != "" then participants.GetOr([])[i] else enteredName.value)
  {
    var ps := participants.GetOr([]);
    PickPartial(ps, Normalize(enteredName), enteredName.GetOr(""), i);
    assert AfterEntered(yourName, enteredName, ps) == (if ps[i] != "" then ps[i] else enteredName.value);
  }

  /** The last fallback is the first participant: it is taken whenever both
      name tiers give nothing, in particular when neither name is usable. */
  lemma FirstParticipantFallback(yourName: Option<string>, enteredName: Option<string>, participants: Option<seq<string>>)
    ensures AfterEntered(yourName, enteredName, participants.GetOr([])) == "" && participants.GetOr([]) != [] ==>
      DisplayName(yourName, enteredName, participants) == participants.GetOr([])[0]
    ensures (!StoredIsParticipant(yourName, participants.GetOr([])) && Normalize(yourName) == "" &&
             Normalize(enteredName) == "" && participants.GetOr([]) != []) ==>
      DisplayName(yourName, enteredName, participants) == participants.GetOr([])[0]
    ensures AfterEntered(yourName, enteredName, participants.GetOr([])) != "" ==>
      DisplayName(yourName, enteredName, participants) == AfterEntered(yourName, enteredName, participants.GetOr([]))
  {
  }

  /** When neither name overlaps any participant's normalised name, a
      non-blank entered name is taken as it is. */
  lemma EnteredNameFallback(yourName: Option<string>, enteredName: Option<string>, participants: Option<seq<string>>)
    requires !StoredIsParticipant(yourName, participants.GetOr([]))
    requires Normalize(enteredName) != ""
    requires forall i :: 0 <= i < |participants.GetOr([])| ==>
      !Overlaps(Normalize(Some(participants.GetOr([])[i])), Normalize(yourName)) &&
      !Overlaps(Normalize(Some(participants.GetOr([])[i])), Normalize(enteredName))
    ensures DisplayName(yourName, enteredName, participants) == enteredName.value
  {
    var ps := participants.GetOr([]);
    var es := Entries(ps);
    ExactIsPartial(es, Normalize(yourName));
    ExactIsPartial(es, Normalize(enteredName));
    assert MatchNormalized(es, Normalize(yourName)).None? && MatchPartial(es, Normalize(yourName)).None?;
    assert AfterStored(yourName, ps) == "";
    assert MatchNormalized(es, Normalize(enteredName)).None? && MatchPartial(es, Normalize(enteredName)).None?;
    assert AfterEntered(yourName, enteredName, ps) == enteredName.value;
  }

  // ---------------------------------------------------------------------
  // isMe

  /** `normalize(m.sender) === normalizedYou`. */
  predicate IsMe(sender: string, you: string) {
    Normalize(Some(sender)) == Normalize(Some(you))
  }

  /** The test only looks at the normalised sender: normalising it first
      changes nothing, and the resolved name is always "me". */
  lemma IsMeNormalized(sender: string, you: string)
    ensures IsMe(Normalize(Some(sender)), you) <==> IsMe(sender, you)
    ensures IsMe(you, you)
  {
    NormalizeIdempotent(Some(sender));
  }
}
