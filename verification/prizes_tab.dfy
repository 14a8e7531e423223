/**
 The admin prizes table and its dialog: how a row shows its stock and status, the form
 the Add button opens, and the request Submit sends. The table's stock convention
 (0 shown as "Unlimited", Low Stock for 1 to 5) differs from the stock-status helper's
 (null is "Unlimited", 0 is "Out of Stock", Low Stock for 1 to 9); the lemmas at the end
 put the three readings of a stock, the table's, the helper's and the draw's, side by side.
 */
module PrizesTab {
  import opened JsValues
  import opened Schema
  import opened Storage
  import Utils
  import Draw

  // ---------------------------------------------------------------- table cells

  /** The stock cell: the text "Unlimited", a number, or nothing (React renders `null` as
      nothing). */
  datatype StockCell = UnlimitedText | Count(n: int) | Blank

  /** `prize.stock === 0 ? "Unlimited" : prize.stock`. */
  function StockCellFor(stock: Option<int>): (r: StockCell)
    ensures r.UnlimitedText? <==> stock == Some(0)
    ensures r.Blank? <==> stock.None?
    ensures r.Count? ==> stock == Some(r.n) && r.n != 0
  {
    match stock
    case None => Blank
    case Some(n) => if n == 0 then UnlimitedText else Count(n)
  }

  const ActiveLabel: string := "Active"
  const LowStockLabel: string := "Low Stock"
  const InactiveLabel: string := "Inactive"

  datatype Badge = Badge(text: string, colorClass: string)

  /** The status badge: inactive prizes are "Inactive" (red); active ones are "Low Stock"
      (yellow) when `stock <= 5 && stock > 0` and "Active" (green) otherwise. A null stock
      compares as 0, so it reads "Active". */
  function StatusBadge(p: Prize): (r: Badge)
    ensures r.text == InactiveLabel <==> !p.isActive
    ensures r.text == LowStockLabel <==> p.isActive && p.stock.Some? && 1 <= p.stock.value <= 5
    ensures r.text == ActiveLabel <==>
      p.isActive && (p.stock.None? || p.stock.value <= 0 || p.stock.value > 5)
    ensures r.colorClass == Utils.RedBadge <==> r.text == InactiveLabel
    ensures r.colorClass == Utils.YellowBadge <==> r.text == LowStockLabel
    ensures r.colorClass == Utils.GreenBadge <==> r.text == ActiveLabel
  {
    if !p.isActive then Badge(InactiveLabel, Utils.RedBadge)
    else if Num(p.stock) <= 5 && Num(p.stock) > 0 then Badge(LowStockLabel, Utils.YellowBadge)
    else Badge(ActiveLabel, Utils.GreenBadge)
  }

  // ---------------------------------------------------------------- the dialog

  /** The dialog state: the prize being edited (none when adding), the form, and whether
      the dialog is open. The form has the fields of an insert record. */
  datatype Dialog = Dialog(editing: Option<Prize>, form: InsertPrize, open: bool)

  /** The form `handleAddPrize` resets to. */
  function AddPrizeForm(): InsertPrize {
    InsertPrize("", Some(""), "Physical", "", "gift", Some(10), true, 10)
  }

  /** `handleAddPrize`: nothing is being edited, the form is reset, the dialog opens. */
  function HandleAddPrize(d: Dialog): (r: Dialog)
    ensures r.editing.None? && r.open
    ensures r.form.category == "Physical" && r.form.icon == "gift"
    ensures r.form.stock == Some(10) && r.form.probability == 10 && r.form.isActive
    ensures r.form.name == "" && r.form.value == "" && r.form.description == Some("")
  {
    Dialog(None, AddPrizeForm(), true)
  }

  /** `handleEditPrize`: the prize is being edited and the form holds its columns. */
  function HandleEditPrize(d: Dialog, p: Prize): (r: Dialog)
    ensures r.editing == Some(p) && r.open
    ensures WithId(r.form, p.id) == p
  {
    Dialog(Some(p), Data(p), true)
  }

  /** What Submit sends: `POST /api/prizes` with the form, or `PUT /api/prizes/:id` with it. */
  datatype Request = CreateRequest(data: InsertPrize) | UpdateRequest(id: int, data: InsertPrize)

  /** `handleSubmit`: an update of the edited prize if there is one, a create otherwise. */
  function HandleSubmit(d: Dialog): (r: Request)
    ensures r.UpdateRequest? <==> d.editing.Some?
    ensures r.UpdateRequest? ==> r.id == d.editing.value.id
    ensures r.data == d.form
  {
    match d.editing
    case Some(p) => UpdateRequest(p.id, d.form)
    case None => CreateRequest(d.form)
  }

  /** The form sent as a request body: every column present. */
  function FullPatch(f: InsertPrize): (u: PrizePatch)
    ensures forall p: Prize :: MergePrize(p, u) == WithId(f, p.id)
  {
    PrizePatch(Set(f.name), Set(f.description), Set(f.category), Set(f.value), Set(f.icon),
               Set(f.stock), Set(f.isActive), Set(f.probability))
  }

  /** The store's side of a request: `createPrize` with the form (the dialog sends every
      column), or `updatePrize` with the form as the body. */
  function Serve(st: Store, req: Request): (r: Store)
    ensures Valid(st) ==> Valid(r)
    ensures req.CreateRequest? ==>
      r.prizes == st.prizes + [WithId(req.data, st.nextPrizeId)] && r.nextPrizeId == st.nextPrizeId + 1
    ensures req.UpdateRequest? ==> r.nextPrizeId == st.nextPrizeId && |r.prizes| == |st.prizes|
    ensures req.UpdateRequest? && Valid(st) ==> forall j :: 0 <= j < |st.prizes| ==>
      r.prizes[j] == if st.prizes[j].id == req.id then WithId(req.data, req.id) else st.prizes[j]
  {
    match req
    case CreateRequest(data) => CreatePrize(st, data).store
    case UpdateRequest(id, data) => UpdatePrize(st, id, FullPatch(data)).store
  }

  /** Opening a stored prize for editing and submitting it unchanged leaves the store as it was. */
  lemma EditRoundTrip(st: Store, d: Dialog, p: Prize)
    requires Valid(st) && p in st.prizes
    ensures Serve(st, HandleSubmit(HandleEditPrize(d, p))) == st
  {
    var r := Serve(st, HandleSubmit(HandleEditPrize(d, p)));
    forall j | 0 <= j < |st.prizes|
      ensures r.prizes[j] == st.prizes[j]
    {
      if st.prizes[j].id == p.id {
        var i :| 0 <= i < |st.prizes| && st.prizes[i] == p;
        IndexOfUnique(st.prizes, p.id, i, j);
      }
    }
  }

  /** A prize added with the default form is eligible in the draw, with weight 10. */
  lemma AddedPrizeIsEligible(st: Store, d: Dialog)
    ensures var r := Serve(st, HandleSubmit(HandleAddPrize(d)));
      var p := r.prizes[|r.prizes| - 1];
      && p.id == st.nextPrizeId
      && Draw.Eligible(p) && p.probability == 10
  {
  }

  // ---------------------------------------------------------------- three readings of a stock

  /** Stock 0: the table says "Unlimited" and the draw treats it as unlimited, while the
      stock-status helper says "Out of Stock". */
  lemma ZeroStockReadings(p: Prize)
    requires p.isActive && p.stock == Some(0)
    ensures StockCellFor(p.stock) == UnlimitedText
    ensures StatusBadge(p).text == ActiveLabel
    ensures Draw.Eligible(p)
    ensures Utils.PrizeStockStatus(p.stock).text == Utils.OutOfStockLabel
  {
  }

  /** Null stock: the helper says "Unlimited", the table shows nothing with an "Active" badge,
      and the draw never picks it. */
  lemma NullStockReadings(p: Prize)
    requires p.isActive && p.stock.None?
    ensures StockCellFor(p.stock) == Blank
    ensures StatusBadge(p).text == ActiveLabel
    ensures !Draw.Eligible(p)
    ensures Utils.PrizeStockStatus(p.stock).text == Utils.UnlimitedLabel
  {
  }

  /** The two "Low Stock" thresholds: the table's covers 1 to 5, the helper's 1 to 9; they
      agree below 6 and disagree from 6 to 9. */
  lemma LowStockThresholds(p: Prize)
    requires p.isActive && p.stock.Some?
    ensures 1 <= p.stock.value <= 5 ==>
      StatusBadge(p).text == LowStockLabel && Utils.PrizeStockStatus(p.stock).text == Utils.LowStockLabel
    ensures 6 <= p.stock.value <= 9 ==>
      StatusBadge(p).text == ActiveLabel && Utils.PrizeStockStatus(p.stock).text == Utils.LowStockLabel
    ensures (StatusBadge(p).text == LowStockLabel) ==> Utils.PrizeStockStatus(p.stock).text == Utils.LowStockLabel
  {
  }

  /** Negative stock: the table shows the number with an "Active" badge, the helper says
      "Out of Stock", and the draw never picks it. */
  lemma NegativeStockReadings(p: Prize)
    requires p.isActive && p.stock.Some? && p.stock.value < 0
    ensures StockCellFor(p.stock) == Count(p.stock.value)
    ensures StatusBadge(p).text == ActiveLabel
    ensures !Draw.Eligible(p)
    ensures Utils.PrizeStockStatus(p.stock).text == Utils.OutOfStockLabel
  {
  }
}
