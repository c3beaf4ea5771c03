/** Fitting a chat into a model's context (cmd/api/model_runtime.go): the token estimate, the text and
  message compactors and the greedy trimmer.

  A message is a JSON value as Go decodes it; the keys of an object are distinct.  Strings are byte
  strings (see Utf8).  Writing the trimmed chat to JSON and reading it back is Redecoded.
 */
module ContextTrim {
  import opened Numbers
  import opened Wrappers
  import Utf8

  /** Numbers, booleans and null are Other: they count for nothing. */
  datatype Value = Str(text: string) | List(items: seq<Value>) | Dict(fields: seq<Field>) | Other

  datatype Field = Field(key: string, value: Value)

  function Find(fields: seq<Field>, key: string): Option<Value> {
    if fields == [] then None
    else if fields[0].key == key then Some(fields[0].value)
    else Find(fields[1..], key)
  }

  // ---------------------------------------------------------------- estimates

  function Tokens(text: string): nat { Max(1, (|text| + 3) / 4) }

  function TextOf(v: Option<Value>): string {
    if v.Some? && v.value.Str? then v.value.text else ""
  }

  predicate IsImage(fields: seq<Field>) {
    TextOf(Find(fields, "type")) in {"image_url", "input_image", "image"}
  }

  function Estimate(v: Value): nat
    decreases v
  {
    match v
    case Str(text) => Tokens(text)
    case List(items) => EstimateItems(items)
    case Dict(fields) => if IsImage(fields) then 512 else EstimateFields(fields)
    case Other => 0
  }

  function EstimateItems(items: seq<Value>): nat
    decreases items
  {
    if items == [] then 0 else Estimate(items[0]) + EstimateItems(items[1..])
  }

  function EstimateField(f: Field): nat
    decreases f
  {
    if f.key == "image_url" || f.key == "url" then 0 else Estimate(f.value)
  }

  function EstimateFields(fields: seq<Field>): nat
    decreases fields
  {
    if fields == [] then 0 else EstimateField(fields[0]) + EstimateFields(fields[1..])
  }

  function Cost(message: Value): nat { 8 + Estimate(message) }

  function TotalCost(messages: seq<Value>): nat {
    if messages == [] then 0 else Cost(messages[0]) + TotalCost(messages[1..])
  }

  /** estimateChatInputTokens on a chat. */
  function EstimateChat(messages: seq<Value>): nat { 64 + TotalCost(messages) }

  /** What things cost: text a token for every four bytes, rounded up, and one at least; an image 512 whatever is in it;
      an object the rest of its fields but the addresses of images; a message eight more, and a chat 64. */
  lemma EstimateMeans(text: string, items: seq<Value>, item: Value, fields: seq<Field>, f: Field)
    ensures 4 * Estimate(Str(text)) >= |text| && Estimate(Str(text)) >= 1
    ensures Estimate(Str(text)) == 1 || 4 * (Estimate(Str(text)) - 1) < |text|
    ensures Estimate(Other) == 0 && Estimate(List([])) == 0 &&
            Estimate(List(items + [item])) == Estimate(List(items)) + Estimate(item)
    ensures TextOf(Find(fields, "type")) in {"image_url", "input_image", "image"} ==> Estimate(Dict(fields)) == 512
    ensures EstimateFields([]) == 0
    ensures EstimateFields([f] + fields) ==
            EstimateFields(fields) + (if f.key == "image_url" || f.key == "url" then 0 else Estimate(f.value))
    ensures TextOf(Find(fields, "type")) !in {"image_url", "input_image", "image"} ==>
              Estimate(Dict(fields)) == EstimateFields(fields)
    ensures EstimateChat([]) == 64 && EstimateChat([item] + items) == EstimateChat(items) + 8 + Estimate(item)
  {
    ItemsAdd(items, item);
    assert ([f] + fields)[1..] == fields && ([item] + items)[1..] == items;
  }

  lemma {:induction false} ItemsAdd(items: seq<Value>, item: Value)
    ensures EstimateItems(items + [item]) == EstimateItems(items) + Estimate(item)
    decreases |items|
  {
    if items == [] {
      var one := [item];
      assert items + [item] == one && one[1..] == [];
    } else {
      assert (items + [item])[1..] == items[1..] + [item];
      ItemsAdd(items[1..], item);
    }
  }

  // --------------------------------------------------------------- compaction

  const DOTS := "\U{E2}\U{80}\U{A6}"
  const SEPARATOR := "\n" + DOTS + "[context compacted]" + DOTS + "\n"

  function CompactText(v: string, budget: int): string {
    if budget <= 0 then ""
    else
      var maxBytes := budget * 4;
      if |v| <= maxBytes then v
      else if maxBytes < 160 then v[|v| - maxBytes..]
      else
        var head := maxBytes * 3 / 5;
        var tail := Max(32, maxBytes - head - |SEPARATOR|);
        v[..head] + SEPARATOR + v[|v| - tail..]
  }

  /** Where a long text is cut; the 32-byte floor on the tail never matters. */
  lemma CompactTextCuts(v: string, budget: int) returns (h: nat, t: nat)
    requires budget >= 40 && |v| > 4 * budget
    ensures 96 <= h <= t && t + 37 <= |v| && h + 27 + (|v| - t) == 4 * budget && h == 12 * budget / 5
    ensures CompactText(v, budget) == v[..h] + SEPARATOR + v[t..]
  {
    SeparatorLength();
    h := budget * 4 * 3 / 5;
    var tail := budget * 4 - h - 27;
    assert 96 <= h && 37 <= tail;
    t := |v| - tail;
  }

  lemma SeparatorLength()
    ensures |SEPARATOR| == 27 && SEPARATOR[4..23] == "[context compacted]"
  {
  }

  /** What is left is the text itself, its end, or its two ends around the mark, in exactly the bytes allowed. */
  lemma CompactTextKeepsTheEnds(v: string, budget: int)
    ensures budget <= 0 ==> CompactText(v, budget) == ""
    ensures budget > 0 ==> |CompactText(v, budget)| == if |v| <= 4 * budget then |v| else 4 * budget
    ensures budget > 0 && |v| <= 4 * budget ==> CompactText(v, budget) == v
    ensures |v| > 4 * budget && 0 < budget < 40 ==> CompactText(v, budget) == v[|v| - 4 * budget..]
    ensures |v| > 4 * budget && budget >= 40 ==>
              exists h, t :: h == 12 * budget / 5 && h <= t && t + 37 <= |v| && |v| - t == 4 * budget - h - 27
                             && CompactText(v, budget) == v[..h] + SEPARATOR + v[t..]
  {
    if |v| > 4 * budget && budget >= 40 {
      var h, t := CompactTextCuts(v, budget);
      SeparatorLength();
      hide CompactText;
    }
  }

  function ReplaceValue(fields: seq<Field>, key: string, v: Value): seq<Field> {
    if fields == [] then []
    else if fields[0].key == key then [fields[0].(value := v)] + fields[1..]
    else [fields[0]] + ReplaceValue(fields[1..], key, v)
  }

  predicate IsTextPart(part: Value) {
    part.Dict? && !IsImage(part.fields) && Find(part.fields, "text").Some? && Find(part.fields, "text").value.Str?
  }

  function CompactPart(part: Value, remaining: int): Value {
    if !IsTextPart(part) then part
    else Dict(ReplaceValue(part.fields, "text",
                           Str(CompactText(Find(part.fields, "text").value.text, Max(0, remaining)))))
  }

  /** What a part takes from the budget: a text part only its text. */
  function Spent(part: Value, remaining: int): nat {
    if part.Dict? && IsImage(part.fields) then 512
    else if IsTextPart(part) then Tokens(CompactText(Find(part.fields, "text").value.text, Max(0, remaining)))
    else Estimate(part)
  }

  /** The budget left before part i. */
  function Remaining(parts: seq<Value>, budget: int, i: nat): int
    requires i <= |parts|
  {
    if i == 0 then budget else Remaining(parts, budget, i - 1) - Spent(parts[i - 1], Remaining(parts, budget, i - 1))
  }

  function CompactParts(parts: seq<Value>, budget: int): seq<Value> {
    seq(|parts|, i requires 0 <= i < |parts| => CompactPart(parts[i], Remaining(parts, budget, i)))
  }

  function Compacted(message: Value, budget: int): Value {
    if !message.Dict? then message
    else match Find(message.fields, "content")
      case Some(Str(text)) => Dict(ReplaceValue(message.fields, "content", Str(CompactText(text, budget))))
      case Some(List(parts)) => Dict(ReplaceValue(message.fields, "content", List(CompactParts(parts, budget))))
      case _ => message
  }

  method CompactOnePart(part: Value, remaining: int) returns (out: Value, left: int)
    ensures out == CompactPart(part, remaining) && left == remaining - Spent(part, remaining)
  {
    if part.Dict? {
      if IsImage(part.fields) { return part, remaining - 512; }
      var text := Find(part.fields, "text");
      if text.Some? && text.value.Str? {
        var compacted := CompactText(text.value.text, Max(0, remaining));
        return Dict(ReplaceValue(part.fields, "text", Str(compacted))), remaining - Tokens(compacted);
      }
    }
    return part, remaining - Estimate(part);
  }

  method CompactContent(parts: seq<Value>, budget: int) returns (out: seq<Value>)
    ensures out == CompactParts(parts, budget)
  {
    hide CompactPart, Spent;
    var remaining := budget;
    out := [];
    for i := 0 to |parts|
      invariant remaining == Remaining(parts, budget, i)
      invariant |out| == i && forall j | 0 <= j < i :: out[j] == CompactPart(parts[j], Remaining(parts, budget, j))
    {
      var part;
      part, remaining := CompactOnePart(parts[i], remaining);
      out := out + [part];
    }
  }

  method CompactMessage(raw: Value, budget: int) returns (message: Value)
    ensures message == Compacted(raw, budget)
  {
    if !raw.Dict? { return raw; }
    var content := Find(raw.fields, "content");
    if content.Some? && content.value.Str? {
      return Dict(ReplaceValue(raw.fields, "content", Str(CompactText(content.value.text, budget))));
    }
    if content.Some? && content.value.List? {
      var out := CompactContent(content.value.items, budget);
      return Dict(ReplaceValue(raw.fields, "content", List(out)));
    }
    return raw;
  }

  // ----------------------------------------------------------------- trimming

  datatype Body = NotJson(bytes: nat) | NoMessages | Chat(messages: seq<Value>)

  function EstimateBody(body: Body): nat {
    match body
    case NotJson(bytes) => Max(1, bytes / 4)
    case NoMessages => 64
    case Chat(messages) => EstimateChat(messages)
  }

  predicate Leads(message: Value) {
    message.Dict? && TextOf(Find(message.fields, "role")) in {"system", "developer"}
  }

  /** Tokens taken by what is kept of messages i and later: the newest always, others when they fit. */
  function Used(messages: seq<Value>, budget: int, i: nat): nat
    requires i <= |messages|
    decreases |messages| - i
  {
    if i == |messages| then 0
    else
      var later := Used(messages, budget, i + 1);
      if Fits(messages, budget, i) then later + Cost(messages[i]) else later
  }

  predicate Fits(messages: seq<Value>, budget: int, i: nat)
    requires i < |messages|
    decreases |messages| - i, 0
  {
    i == |messages| - 1 || Used(messages, budget, i + 1) + Cost(messages[i]) <= budget
  }

  /** What becomes of message i: kept, compacted if it is the leading instruction, or dropped. */
  function KeptOf(messages: seq<Value>, budget: int, i: nat): seq<Value>
    requires i < |messages|
  {
    if Fits(messages, budget, i) then [messages[i]]
    else if i == 0 && Leads(messages[0]) then [Compacted(messages[0], Max(64, budget - Used(messages, budget, 1)))]
    else []
  }

  function KeptFrom(messages: seq<Value>, budget: int, i: nat): seq<Value>
    requires i <= |messages|
    decreases |messages| - i
  {
    if i == |messages| then [] else KeptOf(messages, budget, i) + KeptFrom(messages, budget, i + 1)
  }

  function Redecoded(v: Value): Value
    decreases v
  {
    match v
    case Str(text) => Str(Utf8.Coerce(text))
    case List(items) => List(RedecodedItems(items))
    case Dict(fields) => Dict(RedecodedFields(fields))
    case Other => Other
  }

  function RedecodedItems(items: seq<Value>): seq<Value>
    decreases items
  {
    if items == [] then [] else [Redecoded(items[0])] + RedecodedItems(items[1..])
  }

  function RedecodedField(f: Field): Field
    decreases f
  {
    Field(f.key, Redecoded(f.value))
  }

  function RedecodedFields(fields: seq<Field>): seq<Field>
    decreases fields
  {
    if fields == [] then [] else [RedecodedField(fields[0])] + RedecodedFields(fields[1..])
  }

  function Sent(messages: seq<Value>): nat { EstimateChat(RedecodedItems(messages)) }

  function Budget(target: int): int { Max(256, target - 96) }

  /** What the newest message is cut to if the selection is still too long. */
  function Cut(target: int): int { Max(128, target - 192) }

  /** The chat trimChatContext sends once it decides to trim. */
  function Trimmed(messages: seq<Value>, target: int): seq<Value>
    requires messages != []
  {
    var kept := KeptFrom(messages, Budget(target), 0);
    var n := |kept|;
    if n > 0 && Sent(kept) > target then kept[n - 1 := Compacted(kept[n - 1], Cut(target))] else kept
  }

  datatype Trim = Trim(body: Body, original: nat, final: nat)

  function Reversed(s: seq<Value>): seq<Value> {
    seq(|s|, i requires 0 <= i < |s| => s[|s| - 1 - i])
  }

  lemma ReversedPrepend(v: Value, s: seq<Value>)
    ensures Reversed([v] + s) == Reversed(s) + [v]
  {
  }

  lemma KeptStep(messages: seq<Value>, budget: int, i: nat)
    requires i < |messages|
    ensures Reversed(KeptFrom(messages, budget, i)) ==
      if Fits(messages, budget, i) then Reversed(KeptFrom(messages, budget, i + 1)) + [messages[i]]
      else if i == 0 && Leads(messages[0])
      then Reversed(KeptFrom(messages, budget, 1)) +
        [Compacted(messages[0], Max(64, budget - Used(messages, budget, 1)))]
      else Reversed(KeptFrom(messages, budget, i + 1))
  {
    hide Fits, Used, Compacted, Leads;
    var rest := KeptFrom(messages, budget, i + 1);
    if KeptOf(messages, budget, i) == [] {
      assert [] + rest == rest;
    } else {
      ReversedPrepend(KeptOf(messages, budget, i)[0], rest);
    }
  }

  /** The walk from the newest message to the oldest; the result is newest first. */
  method SelectMessages(messages: seq<Value>, budget: int) returns (selected: seq<Value>)
    requires messages != []
    ensures selected == Reversed(KeptFrom(messages, budget, 0))
  {
    hide Cost, Compacted, Leads, KeptFrom, Reversed;
    selected := [];
    assert Reversed(KeptFrom(messages, budget, |messages|)) == [] by { EmptyKept(messages, budget); }
    var used := 0;
    var i := |messages|;
    while i > 0
      invariant 0 <= i <= |messages|
      invariant selected == Reversed(KeptFrom(messages, budget, i))
      invariant i > 0 ==> used == Used(messages, budget, i)
      invariant selected == [] <==> i == |messages|
    {
      i := i - 1;
      KeptStep(messages, budget, i);
      var cost := Cost(messages[i]);
      if selected == [] || used + cost <= budget {
        selected := selected + [messages[i]];
        used := used + cost;
        continue;
      }
      if i == 0 && Leads(messages[0]) {
        var compacted := CompactMessage(messages[0], Max(64, budget - used));
        selected := selected + [compacted];
        used := budget;
      }
    }
  }

  lemma EmptyKept(messages: seq<Value>, budget: int)
    ensures Reversed(KeptFrom(messages, budget, |messages|)) == []
  {
  }

  method TrimChatContext(body: Body, target: int) returns (r: Result<Trim, ()>)
    ensures match body
      case NotJson(bytes) =>
        var estimate := if bytes < 4 then 1 else bytes / 4;
        r == if target <= 0 then Ok(Trim(body, estimate, estimate)) else Err(())
      case NoMessages => r == Ok(Trim(body, 64, 64))
      case Chat(messages) =>
        var original := EstimateChat(messages);
        r == if target <= 0 || messages == [] || original <= target then Ok(Trim(body, original, original))
             else Ok(Trim(Chat(Trimmed(messages, target)), original, Sent(Trimmed(messages, target))))
  {
    hide EstimateChat, Compacted, KeptFrom, Sent;
    if target <= 0 { return Ok(Trim(body, EstimateBody(body), EstimateBody(body))); }
    if body.NotJson? { return Err(()); }
    if body.NoMessages? || body.messages == [] { return Ok(Trim(body, EstimateBody(body), EstimateBody(body))); }
    var original := EstimateChat(body.messages);
    if original <= target { return Ok(Trim(body, original, original)); }
    var selected := SelectMessages(body.messages, Budget(target));
    selected := Reverse(selected);
    assert selected == KeptFrom(body.messages, Budget(target), 0);
    var final := Sent(selected);
    if final > target && |selected| > 0 {
      var last := |selected| - 1;
      var compacted := CompactMessage(selected[last], Max(128, target - 192));
      selected := selected[last := compacted];
      final := Sent(selected);
    }
    return Ok(Trim(Chat(selected), original, final));
  }

  method Reverse(s: seq<Value>) returns (r: seq<Value>)
    ensures r == Reversed(s)
  {
    r := s;
    var i, j := 0, |s| - 1;
    while i < j
      invariant 0 <= i <= j + 1 && i + j == |s| - 1 && |r| == |s|
      invariant forall k | 0 <= k < i || j < k < |s| :: r[k] == s[|s| - 1 - k]
      invariant forall k | i <= k <= j :: r[k] == s[k]
    {
      r := r[i := r[j]][j := r[i]];
      i, j := i + 1, j - 1;
    }
  }

  // ------------------------------------------------- what survives the trimming

  lemma {:induction false} ReplaceLeavesOthers(fields: seq<Field>, key: string, v: Value, other: string)
    requires other != key
    ensures Find(ReplaceValue(fields, key, v), other) == Find(fields, other)
  {
    if fields != [] {
      ReplaceLeavesOthers(fields[1..], key, v, other);
      var r := ReplaceValue(fields, key, v);
      assert r[1..] == (if fields[0].key == key then fields[1..] else ReplaceValue(fields[1..], key, v));
    }
  }

  lemma {:induction false} ReplaceSets(fields: seq<Field>, key: string, v: Value)
    requires Find(fields, key).Some?
    ensures Find(ReplaceValue(fields, key, v), key) == Some(v)
  {
    if fields[0].key != key {
      ReplaceSets(fields[1..], key, v);
      assert ReplaceValue(fields, key, v)[1..] == ReplaceValue(fields[1..], key, v);
    }
  }

  /** Compacting a message changes nothing but its text: other fields, the number of parts, and every part
      that is not text (images above all) stay as they are. */
  lemma CompactionOnlyShortensText(m: Value, budget: int, key: string)
    requires m.Dict?
    ensures var c := Compacted(m, budget);
      && c.Dict?
      && (key != "content" ==> Find(c.fields, key) == Find(m.fields, key))
      && match Find(m.fields, "content")
         case Some(Str(text)) => Find(c.fields, "content") == Some(Str(CompactText(text, budget)))
         case Some(List(parts)) =>
           exists out: seq<Value> :: Find(c.fields, "content") == Some(List(out)) && |out| == |parts|
             && forall i | 0 <= i < |parts| ::
                  if !IsTextPart(parts[i]) then out[i] == parts[i]
                  else out[i].Dict? && (key != "text" ==> Find(out[i].fields, key) == Find(parts[i].fields, key))
         case _ => c == m
  {
    var c := Compacted(m, budget);
    var content := Find(m.fields, "content");
    if content.Some? && content.value.Str? {
      var v := Str(CompactText(content.value.text, budget));
      ReplaceSets(m.fields, "content", v);
      if key != "content" { ReplaceLeavesOthers(m.fields, "content", v, key); }
    } else if content.Some? && content.value.List? {
      var parts := content.value.items;
      var out := CompactParts(parts, budget);
      ReplaceSets(m.fields, "content", List(out));
      if key != "content" { ReplaceLeavesOthers(m.fields, "content", List(out), key); }
      forall i | 0 <= i < |parts|
        ensures if !IsTextPart(parts[i]) then out[i] == parts[i]
                else out[i].Dict? && (key != "text" ==> Find(out[i].fields, key) == Find(parts[i].fields, key))
      {
        CompactPartOnlyShortensText(parts[i], Remaining(parts, budget, i), key);
      }
      assert Find(c.fields, "content") == Some(List(out));
    }
  }

  lemma CompactPartOnlyShortensText(part: Value, remaining: int, key: string)
    ensures var out := CompactPart(part, remaining);
            if !IsTextPart(part) then out == part
            else out.Dict? && (key != "text" ==> Find(out.fields, key) == Find(part.fields, key))
  {
    if IsTextPart(part) && key != "text" {
      ReplaceLeavesOthers(part.fields, "text",
                          Str(CompactText(Find(part.fields, "text").value.text, Max(0, remaining))), key);
    }
  }

  /** What a part of a message costs: an image 512, text its tokens, anything else its estimate. */
  function PartCost(part: Value): nat {
    if part.Dict? && IsImage(part.fields) then 512
    else if IsTextPart(part) then Tokens(Find(part.fields, "text").value.text)
    else Estimate(part)
  }

  function PartsCost(parts: seq<Value>): nat {
    if parts == [] then 0 else PartsCost(parts[..|parts| - 1]) + PartCost(parts[|parts| - 1])
  }

  lemma PartsCostMore(parts: seq<Value>, i: nat)
    requires i < |parts|
    ensures PartsCost(parts[..i + 1]) == PartsCost(parts[..i]) + PartCost(parts[i])
  {
    assert parts[..i + 1][..i] == parts[..i];
  }

  lemma CutPartIsText(part: Value, remaining: int)
    requires IsTextPart(part)
    ensures var out := CompactPart(part, remaining);
            && IsTextPart(out) && !IsImage(out.fields)
            && Find(out.fields, "text").value.text ==
              CompactText(Find(part.fields, "text").value.text, Max(0, remaining))
  {
    var v := Str(CompactText(Find(part.fields, "text").value.text, Max(0, remaining)));
    ReplaceSets(part.fields, "text", v);
    ReplaceLeavesOthers(part.fields, "text", v, "type");
  }

  lemma SpentIsCost(part: Value, remaining: int)
    ensures Spent(part, remaining) == PartCost(CompactPart(part, remaining))
  {
    if IsTextPart(part) { CutPartIsText(part, remaining); }
    hide CompactText, Tokens, Estimate;
  }

  lemma {:induction false} RemainingIs(parts: seq<Value>, budget: int, i: nat)
    requires i <= |parts|
    ensures Remaining(parts, budget, i) == budget - PartsCost(CompactParts(parts, budget)[..i])
  {
    hide CompactPart, Spent, PartCost;
    if i > 0 {
      RemainingIs(parts, budget, i - 1);
      PartsCostMore(CompactParts(parts, budget), i - 1);
      SpentIsCost(parts[i - 1], Remaining(parts, budget, i - 1));
    }
  }

  /** Each text of a message made of parts is cut to what the parts before it, as they are kept, leave of the budget;
      parts without text are kept as they are. */
  lemma PartsAreCut(m: Value, parts: seq<Value>, budget: int, i: nat)
    requires m.Dict? && Find(m.fields, "content") == Some(List(parts)) && i < |parts|
    ensures var c := Compacted(m, budget);
            c.Dict? && match Find(c.fields, "content")
            case Some(List(out)) =>
              && |out| == |parts| && (!IsTextPart(parts[i]) ==> out[i] == parts[i])
              && (IsTextPart(parts[i]) ==>
                    && IsTextPart(out[i])
                    && Find(out[i].fields, "text").value.text ==
                       CompactText(Find(parts[i].fields, "text").value.text, Max(0, budget - PartsCost(out[..i]))))
            case _ => false
  {
    var out := CompactParts(parts, budget);
    ReplaceSets(m.fields, "content", List(out));
    RemainingIs(parts, budget, i);
    if IsTextPart(parts[i]) { CutPartIsText(parts[i], Remaining(parts, budget, i)); }
    hide CompactText, Remaining, Spent, Tokens, Estimate;
  }

  lemma {:induction false} ReplaceSame(fields: seq<Field>, key: string, v: Value)
    requires Find(fields, key) == Some(v)
    ensures ReplaceValue(fields, key, v) == fields
  {
    if fields[0].key != key {
      ReplaceSame(fields[1..], key, v);
      assert fields == [fields[0]] + fields[1..];
    } else {
      assert fields[0].(value := v) == fields[0] && fields == [fields[0]] + fields[1..];
    }
  }

  lemma EnoughKeepsPart(part: Value, remaining: int)
    requires PartCost(part) <= remaining
    ensures CompactPart(part, remaining) == part
  {
    if IsTextPart(part) { ReplaceSame(part.fields, "text", Find(part.fields, "text").value); }
    hide Estimate, IsImage;
  }

  lemma {:induction false} PrefixCosts(parts: seq<Value>, i: nat)
    requires i <= |parts|
    ensures PartsCost(parts[..i]) <= PartsCost(parts)
    decreases |parts| - i
  {
    hide PartCost;
    if i < |parts| {
      PartsCostMore(parts, i);
      PrefixCosts(parts, i + 1);
    } else {
      assert parts[..i] == parts;
    }
  }

  lemma EnoughFor(parts: seq<Value>, budget: int, i: nat)
    requires PartsCost(parts) <= budget && i < |parts|
    ensures CompactPart(parts[i], budget - PartsCost(parts[..i])) == parts[i]
  {
    hide CompactPart, PartCost;
    PartsCostMore(parts, i);
    PrefixCosts(parts, i + 1);
    EnoughKeepsPart(parts[i], budget - PartsCost(parts[..i]));
  }

  lemma {:induction false} EnoughRemains(parts: seq<Value>, budget: int, i: nat)
    requires PartsCost(parts) <= budget && i <= |parts|
    ensures Remaining(parts, budget, i) == budget - PartsCost(parts[..i])
  {
    hide CompactPart, PartCost, Spent;
    if i > 0 {
      EnoughRemains(parts, budget, i - 1);
      PartsCostMore(parts, i - 1);
      EnoughFor(parts, budget, i - 1);
      SpentIsCost(parts[i - 1], Remaining(parts, budget, i - 1));
    }
  }

  /** A message whose parts all fit the budget comes back unchanged. */
  lemma EnoughKeepsMessage(m: Value, parts: seq<Value>, budget: int)
    requires m.Dict? && Find(m.fields, "content") == Some(List(parts)) && PartsCost(parts) <= budget
    ensures Compacted(m, budget) == m
  {
    hide CompactPart, Remaining, PartsCost, ReplaceValue;
    forall i | 0 <= i < |parts| ensures CompactParts(parts, budget)[i] == parts[i] {
      EnoughRemains(parts, budget, i);
      EnoughFor(parts, budget, i);
    }
    assert CompactParts(parts, budget) == parts;
    ReplaceSame(m.fields, "content", List(parts));
  }

  ghost predicate Increasing(idx: seq<nat>) {
    forall a, b | 0 <= a < b < |idx| :: idx[a] < idx[b]
  }

  /** idx says where the kept messages come from; only message 0, an instruction, may be compacted. */
  ghost predicate From(messages: seq<Value>, budget: int, i: nat, kept: seq<Value>, idx: seq<nat>) {
    && |idx| == |kept| && Increasing(idx)
    && (forall k | 0 <= k < |idx| :: i <= idx[k] < |messages| && Came(messages, budget, idx[k], kept[k]))
    && (forall j | i <= j < |messages| :: j in idx <==> Fits(messages, budget, j) || (j == 0 && Leads(messages[0])))
    && (i < |messages| ==>
          kept != [] && idx[|idx| - 1] == |messages| - 1 && kept[|kept| - 1] == messages[|messages| - 1])
  }

  ghost predicate Came(messages: seq<Value>, budget: int, j: nat, v: Value)
    requires j < |messages|
  {
    v == messages[j] || (j == 0 && Leads(messages[0]) && !Fits(messages, budget, 0)
                         && v == Compacted(messages[0], Max(64, budget - Used(messages, budget, 1))))
  }

  lemma DropOne(messages: seq<Value>, budget: int, i: nat, kept: seq<Value>, idx: seq<nat>)
    requires i + 1 < |messages| && From(messages, budget, i + 1, kept, idx)
    requires !Fits(messages, budget, i) && !(i == 0 && Leads(messages[0]))
    ensures From(messages, budget, i, kept, idx)
  {
    hide Fits, Leads, Came;
  }

  lemma KeepOne(messages: seq<Value>, budget: int, i: nat, v: Value, kept: seq<Value>, idx: seq<nat>)
    requires i < |messages| && From(messages, budget, i + 1, kept, idx)
    requires Fits(messages, budget, i) || (i == 0 && Leads(messages[0]))
    requires Came(messages, budget, i, v) && (i == |messages| - 1 ==> v == messages[i])
    ensures From(messages, budget, i, [v] + kept, [i] + idx)
  {
    hide Fits, Leads, Came;
    var all, kept' := [i] + idx, [v] + kept;
    forall k | 0 <= k < |all| ensures i <= all[k] < |messages| && Came(messages, budget, all[k], kept'[k]) {
      assert k > 0 ==> all[k] == idx[k - 1] && kept'[k] == kept[k - 1];
    }
    forall j | i <= j < |messages|
      ensures j in all <==> Fits(messages, budget, j) || (j == 0 && Leads(messages[0]))
    {
      if j > i { assert j in all <==> j in idx; }
    }
  }

  lemma {:induction false} KeptComesFrom(messages: seq<Value>, budget: int, i: nat) returns (idx: seq<nat>)
    requires i <= |messages|
    ensures From(messages, budget, i, KeptFrom(messages, budget, i), idx)
    decreases |messages| - i
  {
    if i == |messages| {
      idx := [];
    } else {
      hide Fits, Used, Leads, Compacted, From;
      idx := KeptComesFrom(messages, budget, i + 1);
      LastFits(messages, budget, i);
      assert KeptFrom(messages, budget, i) == KeptOf(messages, budget, i) + KeptFrom(messages, budget, i + 1);
      hide KeptFrom;
      var rest := KeptFrom(messages, budget, i + 1);
      if Fits(messages, budget, i) {
        KeepOne(messages, budget, i, messages[i], rest, idx);
        idx := [i] + idx;
      } else if i == 0 && Leads(messages[0]) {
        KeepOne(messages, budget, 0, KeptOf(messages, budget, 0)[0], rest, idx);
        idx := [i] + idx;
      } else {
        DropOne(messages, budget, i, rest, idx);
        assert [] + rest == rest;
      }
    }
  }

  lemma LastFits(messages: seq<Value>, budget: int, i: nat)
    requires i < |messages|
    ensures i == |messages| - 1 ==> Fits(messages, budget, i)
  {
  }

  /** The trimmed chat is an in-order selection of the messages.  The newest message and a leading
      instruction survive; only those two can be compacted; anything else was dropped because it did not fit. */
  lemma TrimmingSelectsInOrder(messages: seq<Value>, target: int) returns (idx: seq<nat>)
    requires messages != []
    ensures |idx| == |Trimmed(messages, target)| > 0 && Increasing(idx) && idx[|idx| - 1] == |messages| - 1
    ensures forall k | 0 <= k < |idx| - 1 ::
              idx[k] < |messages| && Came(messages, Budget(target), idx[k], Trimmed(messages, target)[k])
    ensures Trimmed(messages, target)[|idx| - 1] == messages[|messages| - 1]
         || Trimmed(messages, target)[|idx| - 1] == Compacted(messages[|messages| - 1], Max(128, target - 192))
    ensures Leads(messages[0]) ==> idx[0] == 0
    ensures forall j | 0 <= j < |messages| && j !in idx ::
              Used(messages, Budget(target), j + 1) + Cost(messages[j]) > Budget(target)
  {
    idx := KeptComesFrom(messages, Budget(target), 0);
    if Leads(messages[0]) { assert 0 in idx; }
    forall j | 0 <= j < |messages| && j !in idx
      ensures Used(messages, Budget(target), j + 1) + Cost(messages[j]) > Budget(target)
    {
      assert !Fits(messages, Budget(target), j);
    }
    hide KeptFrom, Fits, Used, Compacted, Leads, Sent;
  }

  // ------------------------------------------------------- how well it then fits

  /** Every string decoded from JSON is well-formed UTF-8. */
  predicate Decoded(v: Value)
    decreases v
  {
    match v
    case Str(text) => Utf8.WellFormed(text)
    case List(items) => DecodedItems(items)
    case Dict(fields) => DecodedFields(fields)
    case Other => true
  }

  predicate DecodedItems(items: seq<Value>)
    decreases items
  {
    items == [] || (Decoded(items[0]) && DecodedItems(items[1..]))
  }

  predicate DecodedField(f: Field)
    decreases f
  {
    Decoded(f.value)
  }

  predicate DecodedFields(fields: seq<Field>)
    decreases fields
  {
    fields == [] || (DecodedField(fields[0]) && DecodedFields(fields[1..]))
  }

  lemma {:induction false} DecodedIsKept(v: Value)
    requires Decoded(v)
    ensures Redecoded(v) == v
    decreases v
  {
    match v
    case Str(text) => Utf8.WellFormedIsKept(text);
    case List(items) => DecodedItemsAreKept(items);
    case Dict(fields) => DecodedFieldsAreKept(fields);
    case Other =>
  }

  lemma {:induction false} DecodedItemsAreKept(items: seq<Value>)
    requires DecodedItems(items)
    ensures RedecodedItems(items) == items
    decreases items
  {
    if items != [] {
      DecodedIsKept(items[0]);
      DecodedItemsAreKept(items[1..]);
    }
  }

  lemma {:induction false} DecodedFieldIsKept(f: Field)
    requires DecodedField(f)
    ensures RedecodedField(f) == f
    decreases f
  {
    DecodedIsKept(f.value);
  }

  lemma {:induction false} DecodedFieldsAreKept(fields: seq<Field>)
    requires DecodedFields(fields)
    ensures RedecodedFields(fields) == fields
    decreases fields
  {
    if fields != [] {
      DecodedFieldIsKept(fields[0]);
      DecodedFieldsAreKept(fields[1..]);
    }
  }

  lemma {:induction false} DecodedItemAt(items: seq<Value>, i: nat)
    requires DecodedItems(items) && i < |items|
    ensures Decoded(items[i]) && DecodedItems(items[i..])
  {
    if i > 0 {
      DecodedItemAt(items[1..], i - 1);
      assert items[1..][i - 1..] == items[i..];
    }
  }

  /** A message whose content is one text. */
  predicate Plain(m: Value) {
    m.Dict? && !IsImage(m.fields) && Find(m.fields, "content").Some? && Find(m.fields, "content").value.Str?
  }

  function Content(m: Value): string
    requires Plain(m)
  {
    Find(m.fields, "content").value.text
  }

  /** What a plain message costs besides its text: the role, mostly. */
  function Overhead(m: Value): int
    requires Plain(m)
  {
    Estimate(m) - Tokens(Content(m))
  }

  lemma ContentCounts(f: Field)
    requires f.key == "content" && f.value.Str?
    ensures EstimateField(f) == Tokens(f.value.text)
  {
    assert |f.key| == 7;
  }

  lemma {:induction false} ReplaceEstimate(fields: seq<Field>, c: string, x: string)
    requires Find(fields, "content") == Some(Str(c))
    ensures EstimateFields(ReplaceValue(fields, "content", Str(x))) == EstimateFields(fields) - Tokens(c) + Tokens(x)
  {
    var r := ReplaceValue(fields, "content", Str(x));
    if fields[0].key != "content" {
      ReplaceEstimate(fields[1..], c, x);
      assert r[0] == fields[0] && r[1..] == ReplaceValue(fields[1..], "content", Str(x));
    } else {
      assert r[0] == Field("content", Str(x)) && r[1..] == fields[1..];
      ContentCounts(fields[0]);
      ContentCounts(r[0]);
    }
  }

  lemma {:induction false} RedecodedReplace(fields: seq<Field>, c: string, x: string)
    requires Find(fields, "content") == Some(Str(c)) && DecodedFields(fields)
    ensures RedecodedFields(ReplaceValue(fields, "content", Str(x))) ==
            ReplaceValue(fields, "content", Str(Utf8.Coerce(x)))
  {
    var r := ReplaceValue(fields, "content", Str(x));
    if fields[0].key != "content" {
      DecodedFieldIsKept(fields[0]);
      RedecodedReplace(fields[1..], c, x);
      assert r[1..] == ReplaceValue(fields[1..], "content", Str(x));
    } else {
      DecodedFieldsAreKept(fields[1..]);
      assert r[0] == Field("content", Str(x)) && r[1..] == fields[1..];
      assert RedecodedField(r[0]) == Field("content", Str(Utf8.Coerce(x)));
    }
  }

  /** What a compacted plain message costs once sent. */
  lemma CompactedCost(m: Value, budget: int)
    requires Plain(m) && Decoded(m)
    ensures Cost(Redecoded(Compacted(m, budget))) ==
            8 + Overhead(m) + Tokens(Utf8.Coerce(CompactText(Content(m), budget)))
  {
    var c := Content(m);
    var x := CompactText(c, budget);
    RedecodedReplace(m.fields, c, x);
    ReplaceEstimate(m.fields, c, Utf8.Coerce(x));
    ReplaceLeavesOthers(m.fields, "content", Str(Utf8.Coerce(x)), "type");
  }

  lemma DotsAreWellFormed()
    ensures Utf8.WellFormed(DOTS)
  {
    assert DOTS[3..] == "" && Utf8.RuneLength(DOTS) == 3;
  }

  lemma SeparatorIsWellFormed()
    ensures Utf8.WellFormed(SEPARATOR) && SEPARATOR[0] < '\U{80}'
  {
    hide Utf8.WellFormed, Utf8.RuneLength;
    var mark := "[context compacted]";
    DotsAreWellFormed();
    Utf8.AsciiIsWellFormed("\n");
    Utf8.AsciiIsWellFormed(mark);
    Utf8.WellFormedJoin("\n", DOTS);
    Utf8.WellFormedJoin("\n" + DOTS, mark);
    Utf8.WellFormedJoin("\n" + DOTS + mark, DOTS);
    Utf8.WellFormedJoin("\n" + DOTS + mark + DOTS, "\n");
  }

  lemma CoercedEnds(v: string, h: nat, t: nat)
    requires Utf8.WellFormed(v) && h <= t <= |v|
    ensures var c := Utf8.Coerce(v[..h] + SEPARATOR + v[t..]);
      |c| <= h + 27 + (|v| - t) + 12 && (Utf8.Ascii(v) ==> |c| == h + 27 + (|v| - t))
  {
    assert v[..h] + SEPARATOR + v[t..] == v[..h] + (SEPARATOR + v[t..]);
    assert |SEPARATOR| == 27 && (SEPARATOR + v[t..])[0] == SEPARATOR[0];
    SeparatorIsWellFormed();
    Utf8.CoerceSplitsAtAscii(v[..h], SEPARATOR + v[t..]);
    Utf8.CoerceKeepsWellFormed(SEPARATOR, v[t..]);
    Utf8.HeadOfWellFormed(v, h);
    Utf8.TailOfWellFormed(v, t);
    if Utf8.Ascii(v) {
      Utf8.AsciiIsWellFormed(v[..h]);
      Utf8.AsciiIsWellFormed(v[t..]);
      Utf8.WellFormedIsKept(v[..h]);
      Utf8.WellFormedIsKept(v[t..]);
    }
    hide Utf8.Coerce, Utf8.WellFormed;
  }

  /** Cutting text in two places can break two characters: twelve bytes, three tokens; none if it is ASCII. */
  lemma CompactTextFits(v: string, budget: int)
    requires Utf8.WellFormed(v) && budget >= 40
    ensures Tokens(Utf8.Coerce(CompactText(v, budget))) <= budget + 3
    ensures Utf8.Ascii(v) ==> Tokens(Utf8.Coerce(CompactText(v, budget))) == Min(Tokens(v), budget)
    ensures Tokens(v) <= budget ==> Utf8.Coerce(CompactText(v, budget)) == v
  {
    if |v| <= 4 * budget {
      Utf8.WellFormedIsKept(v);
    } else {
      var h, t := CompactTextCuts(v, budget);
      CoercedEnds(v, h, t);
      hide Utf8.Coerce, Utf8.WellFormed, CompactText, Utf8.Ascii;
    }
  }

  lemma {:induction false} TotalCostJoin(a: seq<Value>, b: seq<Value>)
    ensures TotalCost(a + b) == TotalCost(a) + TotalCost(b)
    decreases |a|
  {
    if a == [] {
      assert a + b == b;
    } else {
      TotalCostJoin(a[1..], b);
      assert (a + b)[1..] == a[1..] + b;
    }
  }

  lemma {:induction false} RedecodedJoin(a: seq<Value>, b: seq<Value>)
    ensures RedecodedItems(a + b) == RedecodedItems(a) + RedecodedItems(b)
    decreases |a|
  {
    if a == [] {
      assert a + b == b;
    } else {
      RedecodedJoin(a[1..], b);
      assert (a + b)[1..] == a[1..] + b;
    }
  }

  /** Past the first message, what is kept costs what the walk counted. */
  lemma {:induction false} KeptCost(messages: seq<Value>, budget: int, i: nat)
    requires 0 < i <= |messages| && DecodedItems(messages)
    ensures TotalCost(RedecodedItems(KeptFrom(messages, budget, i))) == Used(messages, budget, i)
    decreases |messages| - i
  {
    if i < |messages| {
      KeptCost(messages, budget, i + 1);
      DecodedItemAt(messages, i);
      DecodedIsKept(messages[i]);
      hide Fits, Cost, Decoded, Redecoded;
      var rest := KeptFrom(messages, budget, i + 1);
      if Fits(messages, budget, i) {
        assert ([messages[i]] + rest)[1..] == rest;
        assert RedecodedItems([messages[i]] + rest)[1..] == RedecodedItems(rest);
      } else {
        assert [] + rest == rest;
      }
    }
  }

  /** The walk stays within budget unless the newest message alone exceeds it; then it keeps nothing else. */
  lemma {:induction false} UsedIsBounded(messages: seq<Value>, budget: int, i: nat)
    requires i < |messages|
    ensures var c := Cost(messages[|messages| - 1]);
            c <= Used(messages, budget, i) && if c <= budget then Used(messages, budget, i) <= budget
                                              else Used(messages, budget, i) == c
    decreases |messages| - i
  {
    if i + 1 < |messages| { UsedIsBounded(messages, budget, i + 1); }
  }

  /** First cost once sent of the selection: what fits, or the compacted instruction on top of it. */
  lemma SentOfKept(messages: seq<Value>, budget: int)
    requires messages != [] && DecodedItems(messages)
    requires !Fits(messages, budget, 0) && Leads(messages[0]) ==> Plain(messages[0])
    ensures Sent(KeptFrom(messages, budget, 0)) == 64 +
      if Fits(messages, budget, 0) || !Leads(messages[0]) then Used(messages, budget, 0)
      else Used(messages, budget, 1) + 8 + Overhead(messages[0])
           + Tokens(Utf8.Coerce(CompactText(Content(messages[0]), Max(64, budget - Used(messages, budget, 1)))))
  {
    var rest := KeptFrom(messages, budget, 1);
    KeptCost(messages, budget, 1);
    var first := KeptOf(messages, budget, 0);
    RedecodedJoin(first, rest);
    TotalCostJoin(RedecodedItems(first), RedecodedItems(rest));
    DecodedItemAt(messages, 0);
    DecodedIsKept(messages[0]);
    if !Fits(messages, budget, 0) && Leads(messages[0]) {
      CompactedCost(messages[0], Max(64, budget - Used(messages, budget, 1)));
    }
    hide Fits, Leads, Cost, Decoded, Redecoded, Compacted, CompactText, Utf8.Coerce;
    if first != [] { assert RedecodedItems(first) == [Redecoded(first[0])]; }
  }

  /** Compacting the newest message changes the total by what that message changes. */
  lemma SentOfCompacted(kept: seq<Value>, newest: Value, budget: int)
    requires kept != [] && kept[|kept| - 1] == newest && Decoded(newest) && Plain(newest)
    ensures Sent(kept[|kept| - 1 := Compacted(newest, budget)])
         == Sent(kept) - Tokens(Content(newest)) + Tokens(Utf8.Coerce(CompactText(Content(newest), budget)))
  {
    var front := kept[..|kept| - 1];
    var other := Compacted(newest, budget);
    assert kept == front + [newest] && kept[|kept| - 1 := other] == front + [other];
    RedecodedJoin(front, [newest]);
    RedecodedJoin(front, [other]);
    TotalCostJoin(RedecodedItems(front), [Redecoded(newest)]);
    TotalCostJoin(RedecodedItems(front), [Redecoded(other)]);
    CompactedCost(newest, budget);
    DecodedIsKept(newest);
    assert RedecodedItems([newest]) == [Redecoded(newest)] && RedecodedItems([other]) == [Redecoded(other)];
    hide Cost, Decoded, Redecoded, Compacted, CompactText, Utf8.Coerce;
  }

  predicate AsciiContent(m: Value) { Plain(m) ==> Utf8.Ascii(Content(m)) }

  predicate AsciiEnds(messages: seq<Value>)
    requires messages != []
  {
    (Leads(messages[0]) ==> AsciiContent(messages[0])) && AsciiContent(messages[|messages| - 1])
  }

  /** The arithmetic of TrimmingFits: k is the overhead, z the tokens broken characters may add, c and t the
      newest message's cost and text, t' its text once compacted, l the compacted instruction's text (if squeezed). */
  lemma FitArithmetic(target: int, k: int, z: int, u0: int, u1: int, c: int, t: int, t': int, squeezed: bool, o: int,
                      l: int)
    requires 0 <= k <= 21 && 0 <= z <= 3 && c - t <= 8 + k && t >= 0 && o <= k
    requires t' <= Cut(target) + z && (t <= Cut(target) ==> t' == t)
    requires c <= u0 && (if c <= Budget(target) then u0 <= Budget(target) else u0 == c)
    requires c <= u1 && (if c <= Budget(target) then u1 <= Budget(target) else u1 == c)
    requires l <= Max(64, Budget(target) - u1) + z
    ensures var sent := 64 + if squeezed then u1 + 8 + o + l else u0;
            var final := if sent > target then sent - t + t' else sent;
            && final <= Max(352, target) + 40 + k + (if z == 0 then 0 else 2 * z - 1)
            && (target >= 352 && final > target ==> squeezed && Budget(target) < u1 + 64)
  {
  }

  /** After trimming, a chat whose newest and leading messages are plain is within the target, or within 352 if that is
      more, by no more than 45 tokens over its role's, 40 when the text is ASCII.  A target of at least 352 is only
      overshot by squeezing in the leading instruction, when less than 64 tokens of the budget were left for it. */
  lemma TrimmingFits(messages: seq<Value>, target: int, overhead: int)
    requires messages != [] && DecodedItems(messages) && 0 <= overhead <= 21
    requires Plain(messages[|messages| - 1]) && Overhead(messages[|messages| - 1]) <= overhead
    requires Leads(messages[0]) ==> Plain(messages[0]) && Overhead(messages[0]) <= overhead
    ensures Sent(Trimmed(messages, target)) <= Max(352, target) + 45 + overhead
    ensures AsciiEnds(messages) ==> Sent(Trimmed(messages, target)) <= Max(352, target) + 40 + overhead
    ensures target >= 352 && Sent(Trimmed(messages, target)) > target ==>
              Leads(messages[0]) && !Fits(messages, Budget(target), 0) &&
                Budget(target) < Used(messages, Budget(target), 1) + 64
  {
    hide Sent, Trimmed, KeptFrom, Fits, Leads, Decoded, Compacted, CompactText, Overhead, Cost, Estimate, Tokens;
    hide AsciiContent, Utf8.Coerce, Plain, Content, Used;
    var budget := Budget(target);
    var newest := messages[|messages| - 1];
    var i := if |messages| > 1 then 1 else 0;
    var u0, u1 := Used(messages, budget, 0), Used(messages, budget, i);
    UsedIsBounded(messages, budget, 0);
    UsedIsBounded(messages, budget, i);
    SentOfTrimmed(messages, target);
    var squeezed, o, l := SentOfSelection(messages, budget);
    var t' := Tokens(Utf8.Coerce(CompactText(Content(newest), Cut(target))));
    var z := if AsciiEnds(messages) then 0 else 3;
    FitArithmetic(target, overhead, z, u0, u1, Cost(newest), Tokens(Content(newest)), t', squeezed, o, l);
  }

  /** What is left of a plain message's text, in tokens, once cut to a budget and sent. */
  function Left(m: Value, budget: int): nat
    requires Plain(m)
  {
    Tokens(Utf8.Coerce(CompactText(Content(m), budget)))
  }

  /** The leading instruction does not fit whole, and is squeezed in. */
  predicate Squeezes(messages: seq<Value>, target: int)
    requires messages != []
  {
    Leads(messages[0]) && !Fits(messages, Budget(target), 0)
  }

  /** What the selection costs: what fits, with the leading instruction squeezed in if need be. */
  function FirstCost(messages: seq<Value>, target: int): int
    requires messages != [] && (Leads(messages[0]) ==> Plain(messages[0]))
  {
    if !Squeezes(messages, target) then 64 + Used(messages, Budget(target), 0)
    else
      var u := Used(messages, Budget(target), 1);
      72 + u + Overhead(messages[0]) + Left(messages[0], Max(64, Budget(target) - u))
  }

  /** The arithmetic of OvershootIff, with FitArithmetic's names and li the instruction's own text. */
  lemma OvershootArithmetic(target: int, k: int, u1: int, t: int, o: int, li: int)
    requires target >= 352 && 0 <= k <= 21 && o <= k && t >= 0 && li >= 0 && u1 >= 0
    ensures var l := Min(li, Max(64, target - 96 - u1));
            var full := 64 + u1 + 8 + o + l;
            full > target && full - t + Min(t, target - 192) > target
            <==> 72 + u1 + o + Min(li, 64) - Max(0, t - (target - 192)) > target
  {
  }

  /** A trimmed chat overshoots its target exactly when the selection does and cutting the newest message does not
      bring it back.  From 352 up that takes a leading instruction that does not fit whole; for ASCII text it is then
      a sum of what the estimates of the messages themselves are. */
  lemma OvershootIff(messages: seq<Value>, target: int, overhead: int)
    requires messages != [] && DecodedItems(messages) && 0 <= overhead <= 21
    requires Plain(messages[|messages| - 1]) && Overhead(messages[|messages| - 1]) <= overhead
    requires Leads(messages[0]) ==> Plain(messages[0]) && Overhead(messages[0]) <= overhead
    ensures var newest, first := messages[|messages| - 1], FirstCost(messages, target);
            Sent(Trimmed(messages, target)) > target <==>
            && (target >= 352 ==> Squeezes(messages, target))
            && first > target && first - Tokens(Content(newest)) + Left(newest, Cut(target)) > target
    ensures AsciiEnds(messages) && target >= 352 ==>
              var excess := Max(0, Tokens(Content(messages[|messages| - 1])) - Cut(target));
              var u := Used(messages, Budget(target), 1);
              (Sent(Trimmed(messages, target)) > target <==>
               && Squeezes(messages, target)
               && 72 + u + Overhead(messages[0]) + Min(Tokens(Content(messages[0])), 64) - excess > target)
    ensures AsciiEnds(messages) ==>
              var newest := messages[|messages| - 1];
              Left(newest, Cut(target)) == Min(Tokens(Content(newest)), Cut(target))
  {
    hide Sent, Trimmed, KeptFrom, Fits, Leads, Decoded, Compacted, CompactText, Overhead, Cost, Estimate, Tokens;
    hide AsciiContent, Utf8.Coerce, Plain, Content, Used;
    TrimmingFits(messages, target, overhead);
    SentOfTrimmed(messages, target);
    var squeezed, o, l := SentOfSelection(messages, Budget(target));
    if squeezed && AsciiEnds(messages) && target >= 352 {
      var u := Used(messages, Budget(target), 1);
      OvershootArithmetic(target, overhead, u, Tokens(Content(messages[|messages| - 1])), o,
                          Tokens(Content(messages[0])));
    }
  }

  lemma NewestIsKept(messages: seq<Value>, budget: int)
    requires messages != []
    ensures var kept := KeptFrom(messages, budget, 0);
            kept != [] && kept[|kept| - 1] == messages[|messages| - 1]
  {
    var idx := KeptComesFrom(messages, budget, 0);
    hide KeptFrom, Fits, Leads, Came;
  }

  lemma SentOfTrimmed(messages: seq<Value>, target: int)
    requires messages != [] && DecodedItems(messages) && Plain(messages[|messages| - 1])
    ensures var newest, sent := messages[|messages| - 1], Sent(KeptFrom(messages, Budget(target), 0));
      var t' := Tokens(Utf8.Coerce(CompactText(Content(newest), Cut(target))));
      && Sent(Trimmed(messages, target)) == (if sent > target then sent - Tokens(Content(newest)) + t' else sent)
      && t' <= Cut(target) + 3 && (AsciiEnds(messages) ==> t' == Min(Tokens(Content(newest)), Cut(target)))
      && (Tokens(Content(newest)) <= Cut(target) ==> t' == Tokens(Content(newest)))
      && Cost(newest) - Tokens(Content(newest)) == 8 + Overhead(newest)
  {
    hide Sent, KeptFrom, Fits, Leads, Decoded, Compacted, CompactText, Overhead, Cost, Estimate, Tokens;
    hide AsciiContent, Utf8.Coerce, Plain, Used, Content;
    assert Cut(target) >= 128;
    hide Cut, Budget;
    NewestIsKept(messages, Budget(target));
    SentOfNewest(messages, messages[|messages| - 1], KeptFrom(messages, Budget(target), 0), Cut(target));
  }

  lemma SentOfSelection(messages: seq<Value>, budget: int) returns (squeezed: bool, o: int, l: int)
    requires messages != [] && DecodedItems(messages)
    requires Leads(messages[0]) ==> Plain(messages[0])
    ensures squeezed <==> !Fits(messages, budget, 0) && Leads(messages[0])
    ensures if squeezed then |messages| > 1 && o == Overhead(messages[0]) else o == 0 && l == 0
    ensures Sent(KeptFrom(messages, budget, 0)) == 64 + if squeezed then Used(messages, budget, 1) + 8 + o + l
                                                        else Used(messages, budget, 0)
    ensures squeezed ==>
              var b := Max(64, budget - Used(messages, budget, 1));
              && l == Tokens(Utf8.Coerce(CompactText(Content(messages[0]), b)))
              && l <= b + 3 && (AsciiEnds(messages) ==> l == Min(Tokens(Content(messages[0])), b))
  {
    LastFits(messages, budget, 0);
    SentOfKept(messages, budget);
    squeezed, o, l := !Fits(messages, budget, 0) && Leads(messages[0]), 0, 0;
    if squeezed {
      var b := Max(64, budget - Used(messages, budget, 1));
      o := Overhead(messages[0]);
      l := Tokens(Utf8.Coerce(CompactText(Content(messages[0]), b)));
      DecodedItemAt(messages, 0);
      CompactedFits(messages[0], b);
    }
    hide Sent, KeptFrom, Used, Decoded, Compacted, CompactText, Overhead, Cost, Estimate, Tokens, AsciiContent,
         Utf8.Coerce, Plain;
  }

  lemma SentOfNewest(messages: seq<Value>, newest: Value, kept: seq<Value>, budget: int)
    requires messages != [] && newest == messages[|messages| - 1] && Plain(newest) && DecodedItems(messages)
    requires kept != [] && kept[|kept| - 1] == newest && budget >= 40
    ensures var t' := Tokens(Utf8.Coerce(CompactText(Content(newest), budget)));
      && Sent(kept[|kept| - 1 := Compacted(newest, budget)]) == Sent(kept) - Tokens(Content(newest)) + t'
      && t' <= budget + 3 && (AsciiContent(newest) ==> t' == Min(Tokens(Content(newest)), budget))
      && (Tokens(Content(newest)) <= budget ==> t' == Tokens(Content(newest)))
      && Cost(newest) - Tokens(Content(newest)) == 8 + Overhead(newest)
  {
    DecodedItemAt(messages, |messages| - 1);
    SentOfCompacted(kept, newest, budget);
    CompactedFits(newest, budget);
    hide Sent, CompactText, Utf8.Coerce, Compacted, Tokens;
  }

  lemma CompactedFits(m: Value, budget: int)
    requires Plain(m) && Decoded(m) && budget >= 40
    ensures var t' := Tokens(Utf8.Coerce(CompactText(Content(m), budget)));
      && t' <= budget + 3 && (AsciiContent(m) ==> t' == Min(Tokens(Content(m)), budget))
      && (Tokens(Content(m)) <= budget ==> t' == Tokens(Content(m)))
  {
    WellFormedContent(m);
    CompactTextFits(Content(m), budget);
    hide CompactText, Utf8.Coerce, Utf8.WellFormed;
  }

  lemma WellFormedContent(m: Value)
    requires Plain(m) && Decoded(m)
    ensures Utf8.WellFormed(Content(m))
  {
    DecodedFind(m.fields, "content");
  }

  lemma {:induction false} DecodedFind(fields: seq<Field>, key: string)
    requires DecodedFields(fields) && Find(fields, key).Some?
    ensures Decoded(Find(fields, key).value)
  {
    if fields[0].key != key { DecodedFind(fields[1..], key); }
  }

  // ------------------------------------------------------- the bound is reached

  function Message(role: string, bytes: nat): Value {
    Dict([Field("role", Str(role)), Field("content", Str(seq(bytes, _ => 'a')))])
  }

  lemma TwoFields(f: Field, g: Field, key: string)
    ensures Find([f, g], key) == if f.key == key then Some(f.value) else if g.key == key then Some(g.value) else None
    ensures EstimateFields([f, g]) == EstimateField(f) + EstimateField(g)
    ensures DecodedFields([f, g]) == (DecodedField(f) && DecodedField(g))
  {
    var none: seq<Field> := [];
    assert [f, g][1..] == [g] && [g][1..] == none;
    assert Find(none, key) == None && EstimateFields(none) == 0 && DecodedFields(none);
    assert Find([g], key) == (if g.key == key then Some(g.value) else None);
    assert EstimateFields([g]) == EstimateField(g) && DecodedFields([g]) == DecodedField(g);
  }

  lemma MessageIsPlain(role: string, bytes: nat)
    requires Utf8.Ascii(role)
    ensures var m := Message(role, bytes);
      && Plain(m) && Decoded(m) && Content(m) == seq(bytes, _ => 'a')
      && Overhead(m) == Tokens(role) && Cost(m) == 8 + Tokens(role) + Tokens(Content(m))
      && (Leads(m) <==> role in {"system", "developer"})
  {
    var m := Message(role, bytes);
    var text := seq(bytes, _ => 'a');
    var f, g := Field("role", Str(role)), Field("content", Str(text));
    assert |"role"| == 4 && |"content"| == 7 && |"type"| == 4 && "role"[0] == 'r' && "type"[0] == 't';
    TwoFields(f, g, "type");
    TwoFields(f, g, "content");
    TwoFields(f, g, "role");
    ContentCounts(g);
    assert EstimateField(f) == Tokens(role);
    Utf8.AsciiIsWellFormed(role);
    Utf8.AsciiIsWellFormed(text);
    assert DecodedField(f) && DecodedField(g);
    assert TextOf(None) == "";
  }

  const CROWDED := [Message("developer", 400), Message("user", 912), Message("user", 40)]

  lemma ThreeMessages(a: Value, b: Value, c: Value, budget: int)
    requires Cost(b) + Cost(c) == budget
    ensures Used([a, b, c], budget, 1) == budget && !Fits([a, b, c], budget, 0)
    ensures Decoded(a) && Decoded(b) && Decoded(c) ==> DecodedItems([a, b, c])
  {
    hide Estimate, Decoded;
    var all := [a, b, c];
    var none: seq<Value> := [];
    assert all[1..] == [b, c] && [b, c][1..] == [c] && [c][1..] == none;
    assert DecodedItems(none);
    assert DecodedItems([c]) == Decoded(c);
    assert DecodedItems([b, c]) == (Decoded(b) && Decoded(c));
    assert Used(all, budget, 2) == Cost(c);
    assert Used(all, budget, 1) == Cost(c) + Cost(b);
  }

  lemma CrowdedWalk()
    ensures DecodedItems(CROWDED) && Plain(CROWDED[0]) && Plain(CROWDED[2]) && Leads(CROWDED[0])
    ensures Overhead(CROWDED[0]) == 3 && |Content(CROWDED[0])| == 400 && Utf8.Ascii(Content(CROWDED[0])) &&
            Tokens(Content(CROWDED[2])) == 10
    ensures Used(CROWDED, 256, 1) == 256 && !Fits(CROWDED, 256, 0)
  {
    hide Message, Decoded, Plain, Leads, Overhead, Cost, Content, Used, Fits, DecodedItems;
    MessageIsPlain("developer", 400);
    MessageIsPlain("user", 912);
    MessageIsPlain("user", 40);
    ThreeMessages(Message("developer", 400), Message("user", 912), Message("user", 40), 256);
  }

  /** A chat of plain ASCII messages, the longest role included, that still costs all of 43 tokens more than 352. */
  lemma TheBoundIsReached(target: int)
    requires target <= 352
    ensures Sent(Trimmed(CROWDED, target)) == 352 + 40 + 3
  {
    assert Budget(target) == 256 && Cut(target) >= 128;
    CrowdedWalk();
    hide Sent, KeptFrom, Decoded, Plain, Leads, Overhead, Cost, Content, Used, Fits, Budget, Cut;
    SentOfKept(CROWDED, 256);
    SentOfTrimmed(CROWDED, target);
    DecodedItemAt(CROWDED, 0);
    var v := Content(CROWDED[0]);
    var h, t := CompactTextCuts(v, 64);
    WellFormedContent(CROWDED[0]);
    CoercedEnds(v, h, t);
    assert Tokens(Utf8.Coerce(CompactText(v, 64))) == 64;
  }
}
