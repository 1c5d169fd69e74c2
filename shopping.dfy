/** The shopping-list name check and the activity-feed sentence. */
module Shopping {
  import opened Common
  import opened Text

  /** `validate_name` of shopping lists: a name that trims to nothing is
      refused first; then one over 255 bytes, counting any surrounding
      whitespace. The name is not returned. */
  function ValidateListName(name: string): (r: Result<Unit>)
    ensures r.Ok? <==> Trim(name) != [] && Utf8Len(name) <= 255
    ensures Trim(name) == [] ==> r == Err("Name cannot be empty")
    ensures Trim(name) != [] && Utf8Len(name) > 255 ==> r == Err("Name must be 255 characters or less")
  {
    if Trim(name) == [] then Err("Name cannot be empty")
    else if Utf8Len(name) > 255 then Err("Name must be 255 characters or less")
    else Ok(Unit)
  }

  /** Whitespace around a name counts towards its length: a word of 250
      bytes padded with three spaces either side is refused. */
  lemma ListNameCountsPadding(w: string)
    requires Utf8Len(w) == 250 && w != [] && !IsWhitespace(w[0])
    ensures ValidateListName(w) == Ok(Unit)
    ensures ValidateListName("   " + w + "   ") == Err("Name must be 255 characters or less")
  {
    TrimEmptyIff(w);
    PaddedNotBlank(w);
    PaddedLength(w);
  }

  lemma PaddedNotBlank(w: string)
    requires w != [] && !IsWhitespace(w[0])
    ensures Trim("   " + w + "   ") != []
  {
    var padded := "   " + w + "   ";
    TrimEmptyIff(padded);
    assert padded[3] == w[0];
  }

  lemma PaddedLength(w: string)
    ensures Utf8Len("   " + w + "   ") == Utf8Len(w) + 6
  {
    Utf8LenAppend("   ", w);
    Utf8LenAppend("   " + w, "   ");
    assert Utf8Len("   ") == 3 by {
      assert "   "[1..] == "  " && "  "[1..] == " " && " "[1..] == [];
    }
  }

  /** `ShoppingListActivity::action_description`. */
  function ActionDescription(username: string, action: string, itemName: string): (r: string)
    ensures action == "added_item" ==> r == username + " added " + itemName
    ensures action == "completed_item" ==> r == username + " completed " + itemName
    ensures action == "uncompleted_item" ==> r == username + " uncompleted " + itemName
    ensures action == "deleted_item" ==> r == username + " deleted " + itemName
    ensures action !in {"added_item", "completed_item", "uncompleted_item", "deleted_item"} ==>
              r == username + " " + action + " " + itemName
  {
    match action
    case "added_item" => username + " added " + itemName
    case "completed_item" => username + " completed " + itemName
    case "uncompleted_item" => username + " uncompleted " + itemName
    case "deleted_item" => username + " deleted " + itemName
    case _ => username + " " + action + " " + itemName
  }

  /** The sentence always starts with the user and ends with the item. */
  lemma DescriptionFrame(username: string, action: string, itemName: string)
    ensures var r := ActionDescription(username, action, itemName);
      |r| > |username| + |itemName| + 1
      && r[..|username| + 1] == username + " "
      && r[|r| - |itemName| - 1..] == " " + itemName
  {
  }

  /** The sentence does not tell the known actions from their verbs: an
      unknown action "added" reads exactly like "added_item". */
  lemma DescriptionAmbiguous(username: string, itemName: string)
    ensures ActionDescription(username, "added_item", itemName) == ActionDescription(username, "added", itemName)
  {
  }
}
