/** What the page and the form compute on small concrete inputs.

    Several lemmas here take a parameter and pin it to a string literal with `requires`
    instead of naming the literal in the `ensures`: the verifier unfolds recursive functions
    applied to literals eagerly, and this keeps each proof within the resource limit. */
module Scenarios {
  import opened Wrappers
  import opened JsString
  import opened Inventory
  import opened ItemForm

  /** A draft whose only fault is its name carries exactly the name error. */
  lemma OnlyNameError(d: Draft)
    requires Trim(d.name) == [] && d.quantity >= 1 && d.category != [] && Trim(d.location) != []
    ensures ValidationErrors(d) == map[Name := NameRequired]
  {
    var errs := ValidationErrors(d);
    var expected := map[Name := NameRequired];
    forall f ensures f in errs <==> f in expected {
      match f
      case Name =>
      case Quantity =>
      case Category =>
      case Location =>
      case Description =>
    }
    assert errs.Keys == expected.Keys;
    assert errs[Name] == expected[Name];
  }

  /** A blank name with the other fields set yields exactly the name error. */
  lemma BlankNameScenario(d: Draft)
    requires d.name == "" && d.quantity == 1 && d.category == "Food" && d.location == "Shelf"
    ensures ValidationErrors(d) == map[Name := NameRequired]
    ensures !DraftValid(d)
  {
    assert Trim(d.name) == [];
    assert Trim(d.location) != [] by {
      assert !IsWhitespace(d.location[0]);
    }
    OnlyNameError(d);
  }

  /** One add into the empty list: one item named "Drill", one category, total quantity 2. */
  lemma DrillScenario(idTime: int, createdTime: int, updatedTime: int)
    ensures var items := WithAdded([], Draft("Drill", 2, "Tools", "Garage", ""), idTime, createdTime, updatedTime);
      && |items| == 1
      && items[0].name == "Drill"
      && Categories(items) == ["Tools"]
      && TotalQuantity(items) == 2
  {
    var items := WithAdded([], Draft("Drill", 2, "Tools", "Garage", ""), idTime, createdTime, updatedTime);
    assert CategoryList(items) == ["Tools"];
    assert Dedup(["Tools"]) == ["Tools"];
    TotalQuantityIsSum(items);
  }

  /** Items in "Tools" and "Food" list their categories as ["Food", "Tools"]. */
  lemma TwoCategoriesScenario(t1: int, t2: int, now: int)
    ensures var items := WithAdded(WithAdded([], Draft("Drill", 2, "Tools", "Garage", ""), t1, now, now),
                                   Draft("Rice", 1, "Food", "Pantry", ""), t2, now, now);
      Categories(items) == ["Food", "Tools"] && |Categories(items)| == 2
  {
    var items := WithAdded(WithAdded([], Draft("Drill", 2, "Tools", "Garage", ""), t1, now, now),
                           Draft("Rice", 1, "Food", "Pantry", ""), t2, now, now);
    assert CategoryList(items) == ["Tools", "Food"];
    assert Dedup(["Tools", "Food"]) == ["Tools", "Food"];
    assert Less("Food", "Tools");
  }

  /** The seed item "Coffee Beans", kept in the "Kitchen Cabinet". */
  predicate IsCoffeeBeans(item: Item) {
    item.name == "Coffee Beans" && item.location == "Kitchen Cabinet" && item.category == "Food"
  }

  lemma LowerKitchenCabinet(s: string)
    requires s == "Kitchen Cabinet"
    ensures ToLower(s) == "kitchen cabinet"
  {
  }

  lemma LowerCoffeeBeans(s: string)
    requires s == "Coffee Beans"
    ensures ToLower(s) == "coffee beans"
  {
  }

  lemma LowerFood(s: string)
    requires s == "Food"
    ensures ToLower(s) == "food"
  {
  }

  lemma CabinetInKitchenCabinet(h: string, n: string)
    requires h == "kitchen cabinet" && n == "cabinet"
    ensures Includes(h, n)
  {
    assert OccursAt(h, n, 8);
    IncludesIff(h, n);
  }

  lemma CoffeeBeansMatchCabinet(item: Item)
    requires IsCoffeeBeans(item)
    ensures Matches(item, "cabinet")
  {
    LowerKitchenCabinet(item.location);
    assert ToLower("cabinet") == "cabinet";
    CabinetInKitchenCabinet(ToLower(item.location), ToLower("cabinet"));
  }

  lemma LowerZzz(s: string)
    requires s == "zzz"
    ensures ToLower(s) == "zzz"
  {
  }

  /** A lowered field without the letter z does not include "zzz". */
  lemma MissesZzz(field: string, lowered: string)
    requires ToLower(field) == lowered && 'z' !in lowered
    ensures !Includes(ToLower(field), ToLower("zzz"))
  {
    LowerZzz("zzz");
    NotIncludedWithoutFirstChar(lowered, "zzz");
  }

  lemma CoffeeBeansNameMissesZzz(name: string)
    requires name == "Coffee Beans"
    ensures !Includes(ToLower(name), ToLower("zzz"))
  {
    LowerCoffeeBeans(name);
    MissesZzz(name, "coffee beans");
  }

  lemma NoZInKitchenCabinet(s: string)
    requires s == "kitchen cabinet"
    ensures 'z' !in s
  {
  }

  lemma CabinetMissesZzz(location: string)
    requires location == "Kitchen Cabinet"
    ensures !Includes(ToLower(location), ToLower("zzz"))
  {
    LowerKitchenCabinet(location);
    NoZInKitchenCabinet("kitchen cabinet");
    MissesZzz(location, "kitchen cabinet");
  }

  lemma FoodMissesZzz(category: string)
    requires category == "Food"
    ensures !Includes(ToLower(category), ToLower("zzz"))
  {
    LowerFood(category);
    MissesZzz(category, "food");
  }

  lemma CoffeeBeansMissZzz(item: Item)
    requires IsCoffeeBeans(item)
    ensures !Matches(item, "zzz")
  {
    CoffeeBeansNameMissesZzz(item.name);
    CabinetMissesZzz(item.location);
    FoodMissesZzz(item.category);
  }

  /** "cabinet" finds the coffee beans through their location; "zzz" finds nothing. */
  lemma SearchScenario(item: Item)
    requires IsCoffeeBeans(item)
    ensures Search([item], "cabinet") == [item]
    ensures Search([item], "zzz") == []
  {
    CoffeeBeansMatchCabinet(item);
    CoffeeBeansMissZzz(item);
    var cabinet := (it: Item) => Matches(it, "cabinet");
    var zzz := (it: Item) => Matches(it, "zzz");
    assert [item][0] == item && [item][1..] == [];
    assert Filter([item], cabinet) == [item] + Filter([], cabinet);
    assert Filter([item], zzz) == [] + Filter([], zzz);
  }

  lemma KitchenPrefix(h: string, n: string)
    requires h == "kitchen cabinet" && n == "kitchen"
    ensures Includes(h, n)
  {
    assert h[..|n|] == n;
  }

  lemma LowerKitchen(s: string)
    requires s == "Kitchen" || s == "kitchen"
    ensures ToLower(s) == "kitchen"
  {
  }

  lemma BeansMatchKitchen(beans: Item)
    requires IsCoffeeBeans(beans)
    ensures Matches(beans, "kitchen")
  {
    LowerKitchen("kitchen");
    LowerKitchenCabinet(beans.location);
    KitchenPrefix(ToLower(beans.location), ToLower("kitchen"));
  }

  lemma KitchenCategoryMatches(category: string)
    requires category == "Kitchen"
    ensures Includes(ToLower(category), ToLower("kitchen"))
  {
    LowerKitchen(category);
    LowerKitchen("kitchen");
    IncludesIff(ToLower(category), ToLower("kitchen"));
    assert OccursAt(ToLower(category), ToLower("kitchen"), 0);
  }

  /** "kitchen" matches one item through its location and another through its category. */
  lemma KitchenScenario(beans: Item, pan: Item)
    requires IsCoffeeBeans(beans)
    requires pan.category == "Kitchen"
    ensures Matches(beans, "kitchen") && Matches(pan, "kitchen")
  {
    BeansMatchKitchen(beans);
    KitchenCategoryMatches(pan.category);
  }

  /** Typing "12" stores 12. */
  lemma QuantityTwelve(raw: string)
    requires raw == "12"
    ensures QuantityInput(raw) == 12
  {
    assert NatToString(12) == NatToString(1) + [DecimalDigit(2)];
    assert IntToString(12) == raw;
    QuantityInputRoundTrip(12);
  }

  /** Typing "-3" stores -3, which validation then rejects. */
  lemma QuantityMinusThree(raw: string)
    requires raw == "-3"
    ensures QuantityInput(raw) == -3
  {
    assert IntToString(-3) == raw;
    QuantityInputRoundTrip(-3);
  }

  /** Text without a leading digit stores 1. */
  lemma QuantityNoDigits(raw: string)
    requires raw == "abc"
    ensures QuantityInput(raw) == 1
  {
    ParseIntUnsigned(raw);
    assert DigitPrefix(raw, 10) == [];
  }

  /** A fraction stores its integer part. */
  lemma QuantityFraction(raw: string)
    requires raw == "2.5"
    ensures QuantityInput(raw) == 2
  {
    ParseIntUnsigned(raw);
    assert DigitPrefix(raw[1..], 10) == [];
    assert DigitPrefix(raw, 10) == "2";
    assert DigitsValue("2", 10) == 2;
  }
}
