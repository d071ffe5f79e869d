/**
  The App component's state: the palette and the two "just copied" markers,
  each replaced wholesale by its handler. The clipboard write and the 2000 ms
  expiry timers are outside the model: whether the write succeeded is an
  argument, and a timer firing is an explicit call to an Expire method.
 */
module App {
  import opened Palette
  import opened CopyText

  datatype Option<T> = None | Some(value: T)

  /** JavaScript truthiness of the optional `id` argument: absent and "" are both false. */
  predicate Truthy(id: Option<string>)
    ensures id == None ==> !Truthy(id)
    ensures id == Some("") ==> !Truthy(id)
    ensures id.Some? && |id.value| > 0 ==> Truthy(id)
  {
    id.Some? && id.value != ""
  }

  class ColorPicker {
    /** The palette, in display order. */
    var colors: seq<ColorData>
    /** Id of the entry whose copy button shows "Copied!", if any. */
    var copiedId: Option<string>
    /** Whether the copy-all buttons show their "Copied" label. */
    var copiedAll: bool

    /** The palette invariant: never empty, no id used twice, every color a hex color. */
    predicate Valid()
      reads this
    {
      |colors| >= 1 && DistinctIds(colors) && AllHex(colors)
    }

    /** Mount: one entry with id "1" and the default blue; both markers unset. */
    constructor ()
      ensures colors == Initial
      ensures |colors| == 1 && colors[0].id == "1" && colors[0].color == "#3b82f6"
      ensures copiedId == None && !copiedAll
      ensures Valid()
    {
      TransformsKeepHex(Initial, InitialId, DefaultColor);
      colors := Initial;
      copiedId := None;
      copiedAll := false;
    }

    /** The "Add Color" button; `newId` stands for the clock-derived id. */
    method AddColorPicker(newId: string)
      modifies this
      ensures colors == Add(old(colors), newId)
      ensures copiedId == old(copiedId) && copiedAll == old(copiedAll)
      ensures old(Valid()) && newId !in IdsOf(old(colors)) ==> Valid()
    {
      ghost var wasValid := Valid();
      if wasValid {
        TransformsKeepHex(colors, newId, DefaultColor);
      }
      colors := Add(colors, newId);
    }

    /** A card's remove button. */
    method RemoveColorPicker(id: string)
      modifies this
      ensures colors == Remove(old(colors), id)
      ensures |old(colors)| <= 1 ==> colors == old(colors)
      ensures copiedId == old(copiedId) && copiedAll == old(copiedAll)
      ensures old(Valid()) ==> Valid()
    {
      ghost var wasValid := Valid();
      if wasValid {
        RemoveDistinct(colors, id);
        RemoveKeepsDistinct(colors, id);
        TransformsKeepHex(colors, id, DefaultColor);
      }
      colors := Remove(colors, id);
    }

    /** A card's color input reporting a new value (the input only reports "#rrggbb"). */
    method UpdateColor(id: string, newColor: string)
      modifies this
      ensures colors == Update(old(colors), id, newColor)
      ensures IdsOf(colors) == IdsOf(old(colors))
      ensures copiedId == old(copiedId) && copiedAll == old(copiedAll)
      ensures old(Valid()) && IsHexColor(newColor) ==> Valid()
    {
      UpdateKeepsIds(colors, id, newColor);
      ghost var wasValid := Valid();
      if wasValid {
        TransformsKeepHex(colors, id, newColor);
      }
      colors := Update(colors, id, newColor);
    }

    /** copyToClipboard: `writeSucceeded` is the outcome of the clipboard write;
        the result is what the clipboard holds afterwards (None: left as it was).
        A truthy id marks that card, any other id marks "copied all"; a failed
        write changes no marker. */
    method CopyToClipboard(text: string, id: Option<string>, writeSucceeded: bool)
      returns (clipboard: Option<string>)
      modifies this
      ensures clipboard == if writeSucceeded then Some(text) else None
      ensures colors == old(colors)
      ensures copiedId == if writeSucceeded && Truthy(id) then id else old(copiedId)
      ensures copiedAll == if writeSucceeded && !Truthy(id) then true else old(copiedAll)
    {
      if writeSucceeded {
        clipboard := Some(text);
        if Truthy(id) {
          copiedId := id;
        } else {
          copiedAll := true;
        }
      } else {
        clipboard := None;
      }
    }

    /** The timer armed by a per-card copy fires: the marker is cleared whatever it holds. */
    method ExpireCopiedId()
      modifies this
      ensures copiedId == None
      ensures colors == old(colors) && copiedAll == old(copiedAll)
    {
      copiedId := None;
    }

    /** The timer armed by a copy-all fires: the flag is cleared whatever it holds. */
    method ExpireCopiedAll()
      modifies this
      ensures !copiedAll
      ensures colors == old(colors) && copiedId == old(copiedId)
    {
      copiedAll := false;
    }

    /** copyAllColors: the stored colors joined by ", ", in palette order, case kept. */
    method CopyAllColors(writeSucceeded: bool) returns (clipboard: Option<string>)
      modifies this
      ensures clipboard == if writeSucceeded then Some(CopyAllText(colors)) else None
      ensures colors == old(colors) && copiedId == old(copiedId)
      ensures copiedAll == (writeSucceeded || old(copiedAll))
      ensures writeSucceeded && Valid() ==> Split(clipboard.value) == Colors(colors)
    {
      ghost var wasValid := Valid();
      if wasValid {
        CopyAllRoundTrip(colors);
      }
      clipboard := CopyToClipboard(CopyAllText(colors), None, writeSucceeded);
    }

    /** A card's "Copy Hex" button: the stored color verbatim, marked with the card's id. */
    method CopyEntry(index: nat, writeSucceeded: bool) returns (clipboard: Option<string>)
      requires index < |colors|
      modifies this
      ensures colors == old(colors)
      ensures clipboard == if writeSucceeded then Some(colors[index].color) else None
      ensures copiedId == if writeSucceeded && colors[index].id != "" then Some(colors[index].id) else old(copiedId)
      ensures copiedAll == if writeSucceeded && colors[index].id == "" then true else old(copiedAll)
    {
      var entry := colors[index];
      clipboard := CopyToClipboard(entry.color, Some(entry.id), writeSucceeded);
    }
  }

  /** Two per-card copies in a row, then the first copy's timer fires: the
      marker of the second copy, held just before, is gone although its own
      timer has not fired. */
  method StaleExpiryClearsNewerMarker(first: string, second: string)
    returns (app: ColorPicker, before: Option<string>)
    requires first != "" && second != ""
    ensures before == Some(second)
    ensures app.copiedId == None
    ensures !app.copiedAll
  {
    app := new ColorPicker();
    var _ := app.CopyToClipboard("#111111", Some(first), true);
    var _ := app.CopyToClipboard("#222222", Some(second), true);
    before := app.copiedId;
    app.ExpireCopiedId();
  }

  /** A copy whose id is the empty string is taken for a copy-all. */
  method EmptyIdMarksCopiedAll() returns (app: ColorPicker)
    ensures app.copiedAll && app.copiedId == None
  {
    app := new ColorPicker();
    var _ := app.CopyToClipboard("#111111", Some(""), true);
  }
}
