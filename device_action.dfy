/** `DeviceAction`: one instruction decoded from the model's response. */
module DeviceActions {

  /** An immutable record; `actionType` (the field `type`, a reserved word
      here) must always be given, every other field
      defaults to the empty string. */
  datatype DeviceAction = DeviceAction(
    actionType: string,
    targetId: string := "",
    textToType: string := "",
    navigationType: string := "",
    packageName: string := "",
    uniqueId: string := "")

  /** An action built from its type alone has every other field empty. */
  lemma DefaultsAreEmpty(t: string)
    ensures var a := DeviceAction(t);
      a.actionType == t && a.targetId == "" && a.textToType == "" && a.navigationType == ""
      && a.packageName == "" && a.uniqueId == ""
  {
  }

  /** Structural equality: actions with equal fields are equal. */
  lemma EqualFieldsEqualActions(a: DeviceAction, b: DeviceAction)
    requires a.actionType == b.actionType && a.targetId == b.targetId && a.textToType == b.textToType
    requires a.navigationType == b.navigationType && a.packageName == b.packageName
    requires a.uniqueId == b.uniqueId
    ensures a == b
  {
  }
}
