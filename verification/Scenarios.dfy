/** The arms of a comparison. */
module Scenarios {

  datatype ScenarioKind = WithSkill | WithoutSkill | OldSkill
}
