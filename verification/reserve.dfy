/** The three-step reservation wizard (views/ReserveView.tsx): a selection of
    pieces toggled by id, the running total, the guarded "next" action and the
    booking form fields. */
module Reserve {
  import opened Types
  import Seqs
  import Constants

  // ---------------------------------------------------------------------------
  // Selection of pieces
  // ---------------------------------------------------------------------------

  /** Some selected entry carries this id (`find` / `some` on `p.id === id`). */
  predicate IsSelected(selected: seq<Piece>, id: string)
  {
    exists i :: 0 <= i < |selected| && selected[i].id == id
  }

  /** No two selected entries share an id. */
  predicate DistinctIds(selected: seq<Piece>)
  {
    forall i, j :: 0 <= i < j < |selected| ==> selected[i].id != selected[j].id
  }

  /** The filter predicate that drops the entries carrying `id`. */
  function OtherId(id: string): Piece -> bool
  {
    (p: Piece) => p.id != id
  }

  /** The selection without the entries carrying `id`, in their original order. */
  function RemoveId(selected: seq<Piece>, id: string): (r: seq<Piece>)
    ensures !IsSelected(r, id)
    ensures Seqs.IsSubsequence(r, selected)
    ensures forall p :: p in r <==> p in selected && p.id != id
    ensures forall p :: multiset(r)[p] == if p.id == id then 0 else multiset(selected)[p]
  {
    Seqs.FilterIsSubsequence(selected, OtherId(id));
    forall p ensures p in Seqs.Filter(selected, OtherId(id)) <==> p in selected && p.id != id {
      Seqs.FilterMembership(selected, OtherId(id), p);
    }
    forall p ensures multiset(Seqs.Filter(selected, OtherId(id)))[p] ==
      if p.id == id then 0 else multiset(selected)[p]
    {
      Seqs.FilterMultiplicity(selected, OtherId(id), p);
    }
    Seqs.Filter(selected, OtherId(id))
  }

  /** `togglePiece`: drop every entry with the piece's id when one is selected,
      otherwise append the piece at the end. */
  function Toggle(selected: seq<Piece>, piece: Piece): (r: seq<Piece>)
    ensures IsSelected(r, piece.id) <==> !IsSelected(selected, piece.id)
    ensures !IsSelected(selected, piece.id) ==>
      |r| == |selected| + 1 && r[..|selected|] == selected && r[|selected|] == piece
    ensures IsSelected(selected, piece.id) ==>
      Seqs.IsSubsequence(r, selected) && |r| < |selected| &&
      (forall p :: p in r <==> p in selected && p.id != piece.id) &&
      (forall p :: multiset(r)[p] == if p.id == piece.id then 0 else multiset(selected)[p])
  {
    if IsSelected(selected, piece.id) then
      var r := RemoveId(selected, piece.id);
      var k :| 0 <= k < |selected| && selected[k].id == piece.id;
      assert selected[k] !in r;
      FilterShorter(selected, piece.id, k);
      r
    else
      var r := selected + [piece];
      assert r[|selected|] == piece;
      r
  }

  /** Removing a present id strictly shortens the selection. */
  lemma {:induction false} FilterShorter(selected: seq<Piece>, id: string, k: int)
    requires 0 <= k < |selected| && selected[k].id == id
    ensures |Seqs.Filter(selected, OtherId(id))| < |selected|
  {
    if k > 0 {
      FilterShorter(selected[1..], id, k - 1);
    }
  }

  /** Membership is decided by id: any record carrying the id of a selected
      entry counts as selected, and toggling it removes that entry. */
  lemma SelectedById(selected: seq<Piece>, p: Piece, q: Piece)
    requires p in selected && q.id == p.id
    ensures IsSelected(selected, q.id)
    ensures p !in Toggle(selected, q) && q !in Toggle(selected, q)
  {
    var k :| 0 <= k < |selected| && selected[k] == p;
  }

  /** Toggling keeps the ids distinct. */
  lemma ToggleKeepsDistinct(selected: seq<Piece>, piece: Piece)
    requires DistinctIds(selected)
    ensures DistinctIds(Toggle(selected, piece))
  {
    if IsSelected(selected, piece.id) {
      RemoveIdKeepsDistinct(selected, piece.id);
    }
  }

  /** Filtering out an id keeps the ids distinct. */
  lemma RemoveIdKeepsDistinct(selected: seq<Piece>, id: string)
    requires DistinctIds(selected)
    ensures DistinctIds(RemoveId(selected, id))
  {
    FilterKeepsDistinct(selected, id);
  }

  lemma {:induction false} FilterKeepsDistinct(selected: seq<Piece>, id: string)
    requires DistinctIds(selected)
    ensures DistinctIds(Seqs.Filter(selected, OtherId(id)))
  {
    if |selected| > 0 {
      var tail := selected[1..];
      assert DistinctIds(tail) by {
        forall i, j | 0 <= i < j < |tail| ensures tail[i].id != tail[j].id {
          assert tail[i] == selected[i + 1] && tail[j] == selected[j + 1];
        }
      }
      FilterKeepsDistinct(tail, id);
      var rest := Seqs.Filter(tail, OtherId(id));
      if selected[0].id != id {
        var r := [selected[0]] + rest;
        assert r == Seqs.Filter(selected, OtherId(id));
        forall j | 0 < j < |r| ensures r[0].id != r[j].id {
          assert r[j] in rest;
          Seqs.FilterMembership(tail, OtherId(id), r[j]);
          var m :| 0 <= m < |tail| && tail[m] == r[j];
          assert selected[m + 1] == r[j];
        }
      }
    }
  }

  /** The selection reached from `selected` by a series of toggles. */
  function ToggleAll(selected: seq<Piece>, pieces: seq<Piece>): seq<Piece>
    decreases |pieces|
  {
    if |pieces| == 0 then selected else ToggleAll(Toggle(selected, pieces[0]), pieces[1..])
  }

  /** Starting from any selection with distinct ids, the empty one included,
      no series of toggles ever selects two entries with the same id. */
  lemma {:induction false} ToggleAllDistinct(selected: seq<Piece>, pieces: seq<Piece>)
    requires DistinctIds(selected)
    ensures DistinctIds(ToggleAll(selected, pieces))
    decreases |pieces|
  {
    if |pieces| > 0 {
      ToggleKeepsDistinct(selected, pieces[0]);
      ToggleAllDistinct(Toggle(selected, pieces[0]), pieces[1..]);
    }
  }

  /** Toggling the same absent piece twice restores the selection. */
  lemma ToggleTwiceRestores(selected: seq<Piece>, piece: Piece)
    requires !IsSelected(selected, piece.id)
    ensures Toggle(Toggle(selected, piece), piece) == selected
  {
    var once := selected + [piece];
    assert IsSelected(once, piece.id) by {
      assert once[|selected|].id == piece.id;
    }
    Seqs.FilterAppend(selected, [piece], OtherId(piece.id));
    Seqs.FilterKeepsAll(selected, OtherId(piece.id));
    Seqs.FilterKeepsNone([piece], OtherId(piece.id));
  }

  /** With distinct ids, toggling a selected id removes exactly that one entry. */
  lemma RemoveUniqueEntry(selected: seq<Piece>, k: int)
    requires DistinctIds(selected) && 0 <= k < |selected|
    ensures RemoveId(selected, selected[k].id) == selected[..k] + selected[k + 1..]
  {
    var keep := OtherId(selected[k].id);
    var front, back := selected[..k], selected[k + 1..];
    assert selected == front + ([selected[k]] + back);
    assert Seqs.Filter(front, keep) == front by {
      forall i | 0 <= i < |front| ensures keep(front[i]) {
        assert front[i] == selected[i];
      }
      Seqs.FilterKeepsAll(front, keep);
    }
    assert Seqs.Filter(back, keep) == back by {
      forall i | 0 <= i < |back| ensures keep(back[i]) {
        assert back[i] == selected[k + 1 + i];
      }
      Seqs.FilterKeepsAll(back, keep);
    }
    assert Seqs.Filter([selected[k]], keep) == [] by {
      Seqs.FilterKeepsNone([selected[k]], keep);
    }
    Seqs.FilterAppend([selected[k]], back, keep);
    Seqs.FilterAppend(front, [selected[k]] + back, keep);
  }

  // ---------------------------------------------------------------------------
  // Running total
  // ---------------------------------------------------------------------------

  /** `totalPrice`: the left-to-right sum of the selected prices. */
  function TotalPrice(selected: seq<Piece>): (r: int)
    ensures |selected| == 0 ==> r == 0
    ensures |selected| == 1 ==> r == selected[0].price
  {
    if |selected| == 0 then 0
    else TotalPrice(selected[..|selected| - 1]) + selected[|selected| - 1].price
  }

  /** With non-negative prices, as in the catalogue, the total is at least
      the price of every selected entry. */
  lemma {:induction false} TotalPriceBounds(selected: seq<Piece>)
    requires forall i :: 0 <= i < |selected| ==> selected[i].price >= 0
    ensures TotalPrice(selected) >= 0
    ensures forall i :: 0 <= i < |selected| ==> selected[i].price <= TotalPrice(selected)
    decreases |selected|
  {
    if |selected| > 0 {
      var init := selected[..|selected| - 1];
      assert forall i :: 0 <= i < |init| ==> init[i] == selected[i];
      TotalPriceBounds(init);
    }
  }

  /** The total of a concatenation is the sum of the totals. */
  lemma {:induction false} TotalPriceAppend(a: seq<Piece>, b: seq<Piece>)
    ensures TotalPrice(a + b) == TotalPrice(a) + TotalPrice(b)
    decreases |b|
  {
    if |b| > 0 {
      var b' := b[..|b| - 1];
      assert (a + b)[..|a + b| - 1] == a + b';
      assert (a + b)[|a + b| - 1] == b[|b| - 1];
      TotalPriceAppend(a, b');
      assert TotalPrice(b) == TotalPrice(b') + b[|b| - 1].price;
    } else {
      assert a + b == a;
    }
  }

  /** The total follows the toggles: it grows by the price of a piece toggled
      in, and shrinks by the price of the selected entry a toggle removes. */
  lemma ToggleTotal(selected: seq<Piece>, piece: Piece)
    requires DistinctIds(selected)
    ensures !IsSelected(selected, piece.id) ==>
      TotalPrice(Toggle(selected, piece)) == TotalPrice(selected) + piece.price
    ensures forall k :: 0 <= k < |selected| && selected[k].id == piece.id ==>
      TotalPrice(Toggle(selected, piece)) == TotalPrice(selected) - selected[k].price
  {
    if !IsSelected(selected, piece.id) {
      TotalPriceAppend(selected, [piece]);
    }
    forall k | 0 <= k < |selected| && selected[k].id == piece.id
      ensures TotalPrice(Toggle(selected, piece)) == TotalPrice(selected) - selected[k].price
    {
      RemoveEntryTotal(selected, k);
    }
  }

  /** Removing the one entry with a given id subtracts exactly its price. */
  lemma RemoveEntryTotal(selected: seq<Piece>, k: int)
    requires DistinctIds(selected) && 0 <= k < |selected|
    ensures TotalPrice(RemoveId(selected, selected[k].id)) == TotalPrice(selected) - selected[k].price
  {
    RemoveUniqueEntry(selected, k);
    TotalWithout(selected, k);
  }

  /** Taking entry `k` out of a selection subtracts its price. */
  lemma TotalWithout(selected: seq<Piece>, k: int)
    requires 0 <= k < |selected|
    ensures TotalPrice(selected) == TotalPrice(selected[..k] + selected[k + 1..]) + selected[k].price
  {
    var x := selected[k];
    var front, back := selected[..k], selected[k + 1..];
    var head := front + [x];
    assert head == selected[..k + 1];
    assert selected == head + back;
    TotalPriceAppend(head, back);
    TotalPriceAppend(front, [x]);
    TotalPriceAppend(front, back);
  }

  /** Selecting "Buda Zen" and "Caneca Cozy" from the catalogue totals 2000 MT;
      deselecting "Buda Zen" again leaves 750 MT. */
  lemma CatalogueTotalExample()
    ensures TotalPrice(Toggle(Toggle([], Constants.PIECES[0]), Constants.PIECES[1])) == 2000
    ensures Toggle(Toggle(Toggle([], Constants.PIECES[0]), Constants.PIECES[1]), Constants.PIECES[0])
      == [Constants.PIECES[1]]
  {
    var p0 := Constants.PIECES[0];
    var p1 := Constants.PIECES[1];
    assert !IsSelected([], p0.id);
    var s1 := [p0];
    assert Toggle([], p0) == s1;
    assert !IsSelected(s1, p1.id);
    var s2 := [p0, p1];
    assert Toggle(s1, p1) == s2;
    assert TotalPrice(s2) == TotalPrice([p0]) + 750;
    assert IsSelected(s2, p0.id) by { assert s2[0].id == p0.id; }
    assert DistinctIds(s2);
    RemoveUniqueEntry(s2, 0);
    assert s2[1..] == [p1];
  }

  // ---------------------------------------------------------------------------
  // Booking form
  // ---------------------------------------------------------------------------

  /** `bookingData`. `guests` is the parsed number (NaN is not modelled). */
  datatype Booking = Booking(date: string, time: string, guests: int, notes: string)

  const InitialBooking: Booking := Booking("", "", 1, "")

  /** One form control's change event and the value it carries. */
  datatype FieldEdit = SetDate(date: string) | SetTime(time: string) | SetGuests(guests: int) | SetNotes(notes: string)

  /** `setBookingData({...bookingData, f: v})`: only the edited field changes. */
  function UpdateField(b: Booking, e: FieldEdit): (r: Booking)
    ensures e.SetDate? ==> r.date == e.date && r.time == b.time && r.guests == b.guests && r.notes == b.notes
    ensures e.SetTime? ==> r.time == e.time && r.date == b.date && r.guests == b.guests && r.notes == b.notes
    ensures e.SetGuests? ==> r.guests == e.guests && r.date == b.date && r.time == b.time && r.notes == b.notes
    ensures e.SetNotes? ==> r.notes == e.notes && r.date == b.date && r.time == b.time && r.guests == b.guests
  {
    match e
    case SetDate(d) => b.(date := d)
    case SetTime(t) => b.(time := t)
    case SetGuests(g) => b.(guests := g)
    case SetNotes(n) => b.(notes := n)
  }

  /** The field a change event writes. */
  function FieldOf(e: FieldEdit): nat
  {
    match e
    case SetDate(_) => 0
    case SetTime(_) => 1
    case SetGuests(_) => 2
    case SetNotes(_) => 3
  }

  /** Edits of different fields commute; a later edit of the same field wins. */
  lemma UpdateFieldCommutes(b: Booking, e1: FieldEdit, e2: FieldEdit)
    ensures FieldOf(e1) != FieldOf(e2) ==>
      UpdateField(UpdateField(b, e1), e2) == UpdateField(UpdateField(b, e2), e1)
    ensures FieldOf(e1) == FieldOf(e2) ==>
      UpdateField(UpdateField(b, e1), e2) == UpdateField(b, e2)
  {
  }

  // ---------------------------------------------------------------------------
  // The wizard
  // ---------------------------------------------------------------------------

  datatype Wizard = Wizard(step: int, selected: seq<Piece>, booking: Booking)

  const InitialWizard: Wizard := Wizard(1, [], InitialBooking)

  /** The floating action bar is rendered only before the last step. */
  predicate ActionBarShown(w: Wizard)
  {
    w.step < 3
  }

  /** The `disabled` expression of the action bar's button. */
  function NextDisabled(w: Wizard): (disabled: bool)
    ensures w.step == 1 ==> (disabled <==> w.selected == [])
    ensures w.step == 2 ==> (disabled <==> w.booking.date == [] || w.booking.time == [])
    ensures w.step !in {1, 2} ==> !disabled
  {
    (w.step == 1 && |w.selected| == 0) || (w.step == 2 && (w.booking.date == "" || w.booking.time == ""))
  }

  /** `handleNext` as the user can reach it: a click on a shown, enabled button
      moves exactly one step forward; otherwise nothing happens. */
  function PressNext(w: Wizard): (r: Wizard)
    ensures r.selected == w.selected && r.booking == w.booking
    ensures r.step == w.step + 1 || r.step == w.step
    ensures r.step == w.step + 1 <==> ActionBarShown(w) && !NextDisabled(w)
  {
    if ActionBarShown(w) && !NextDisabled(w) then w.(step := w.step + 1) else w
  }

  /** Indicator bar `i` (1, 2 or 3) is filled iff the step has reached it. */
  function Indicator(step: int): (r: seq<bool>)
    ensures |r| == 3
    ensures forall i :: 0 <= i < |r| ==> (r[i] <==> step >= i + 1)
  {
    [step >= 1, step >= 2, step >= 3]
  }

  /** At a valid step the filled bars are exactly the first `step` bars. */
  lemma IndicatorFilledPrefix(step: int)
    requires 1 <= step <= 3
    ensures forall i :: 0 <= i < 3 ==> (Indicator(step)[i] <==> i < step)
    ensures Indicator(step) == seq(step, _ => true) + seq(3 - step, _ => false)
  {
  }

  /** A user action on the wizard screen. */
  datatype WizardEvent = TogglePiece(piece: Piece) | Edit(edit: FieldEdit) | Next

  /** The effect of one user action. The piece cards exist only at step 1 and
      the form fields only at step 2; actions on controls that are not on
      screen change nothing. */
  function Apply(w: Wizard, e: WizardEvent): (r: Wizard)
    ensures r.step == w.step || r.step == w.step + 1
    ensures r.step == w.step + 1 ==> e.Next?
    ensures e.TogglePiece? && w.step == 1 ==> r.selected == Toggle(w.selected, e.piece)
    ensures e.TogglePiece? && w.step != 1 ==> r == w
    ensures !e.TogglePiece? ==> r.selected == w.selected
    ensures e.Edit? && w.step != 2 ==> r == w
    ensures e.Edit? && w.step == 2 ==> r == w.(booking := UpdateField(w.booking, e.edit))
    ensures e.Next? ==> r == PressNext(w)
    ensures e.TogglePiece? ==> r.booking == w.booking && r.step == w.step
  {
    match e
    case TogglePiece(p) => if w.step == 1 then w.(selected := Toggle(w.selected, p)) else w
    case Edit(f) => if w.step == 2 then w.(booking := UpdateField(w.booking, f)) else w
    case Next => PressNext(w)
  }

  function Run(w: Wizard, events: seq<WizardEvent>): Wizard
    decreases |events|
  {
    if |events| == 0 then w else Run(Apply(w, events[0]), events[1..])
  }

  /** What every reachable wizard state satisfies: the step stays in 1..3, the
      ids are distinct, leaving step 1 needed a piece, and reaching step 3
      needed both a date and a time. */
  predicate WizardInvariant(w: Wizard)
  {
    && 1 <= w.step <= 3
    && DistinctIds(w.selected)
    && (w.step >= 2 ==> |w.selected| > 0)
    && (w.step == 3 ==> w.booking.date != "" && w.booking.time != "")
  }

  lemma ApplyKeepsInvariant(w: Wizard, e: WizardEvent)
    requires WizardInvariant(w)
    ensures WizardInvariant(Apply(w, e))
  {
    if e.TogglePiece? && w.step == 1 {
      ToggleKeepsDistinct(w.selected, e.piece);
    }
  }

  /** Every state reachable from the initial one satisfies the invariant. */
  lemma {:induction false} RunKeepsInvariant(w: Wizard, events: seq<WizardEvent>)
    requires WizardInvariant(w)
    ensures WizardInvariant(Run(w, events))
    decreases |events|
  {
    if |events| > 0 {
      ApplyKeepsInvariant(w, events[0]);
      RunKeepsInvariant(Apply(w, events[0]), events[1..]);
    }
  }

  lemma ReachableStatesValid(events: seq<WizardEvent>)
    ensures WizardInvariant(Run(InitialWizard, events))
  {
    RunKeepsInvariant(InitialWizard, events);
  }
}
