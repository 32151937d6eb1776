/** Section types and property names of the configuration format. */
module Names {
  const DataNode := "DATA_NODE"
  const Task := "TASK"
  const Sequence := "SEQUENCE"
  const Scenario := "SCENARIO"

  const PropInputs := "inputs"
  const PropOutputs := "outputs"
  const PropTasks := "tasks"
  const PropSequences := "sequences"
  const PropDataNodes := "additional_data_nodes"
}
